/** Over every run of proposals, executions, reverts and foreign writes to the lab tables: a value
    is blocked exactly while a block action for it stands executed, and the action log tells the
    status of every action. */
module ResponseRuns {
  import opened Options
  import opened ResponseModel

  /** The table says that `value` is blocked. */
  ghost predicate IsBlocked(w: World, value: string) {
    exists o :: o in w.blocked && w.blocked[o].active && w.blocked[o].value == value
  }

  ghost predicate IsExecutedBlock(w: World, a: Id, value: string) {
    && a in w.actions && w.actions[a].status == Executed
    && w.actions[a].kind.Block? && w.actions[a].kind.value == value
  }

  /** Some block action for `value` stands executed. */
  ghost predicate HasExecutedBlock(w: World, value: string) {
    exists a :: IsExecutedBlock(w, a, value)
  }

  // ---------------------------------------------------------------------------
  // The invariant of the block tables.
  // ---------------------------------------------------------------------------

  function BlockRow(a: Id, o: Id): LogRow {
    LogRow(a, Good, Some(BlockInfo(o)))
  }

  /** An observable belongs to a block action for its value, which was executed, and is active
      until that action is reverted; the log of the execution names it. */
  ghost predicate ObservableFits(w: World, o: Id)
    requires o in w.blocked
  {
    var b := w.blocked[o];
    && b.owner in w.actions
    && var a := w.actions[b.owner];
       && a.kind.Block? && a.kind.value == b.value
       && (a.status == Executed || a.status == Reverted)
       && (b.active <==> a.status == Executed)
       && (a.status == Executed ==> LastGood(w.logs, b.owner) == Some(BlockRow(b.owner, o)))
  }

  ghost predicate OwnsObservable(w: World, a: Id) {
    exists o :: o in w.blocked && w.blocked[o].owner == a
  }

  ghost predicate BlocksFit(w: World) {
    && (forall o :: o in w.blocked ==> ObservableFits(w, o))
    && (forall a :: a in w.actions && w.actions[a].kind.Block? && w.actions[a].status == Executed ==>
                      OwnsObservable(w, a))
  }

  lemma LastGoodAppend(logs: seq<LogRow>, row: LogRow, id: Id)
    ensures LastGood(logs + [row], id) ==
            if row.action == id && row.outcome == Good then Some(row) else LastGood(logs, id)
  {
    var all := logs + [row];
    assert all[|all| - 1] == row && all[..|all| - 1] == logs;
  }

  /** The log row of one action changes the newest good row of no other. */
  lemma OthersKeepLastGood(w: World, id: Id, status: Status, e: Effect, other: Id)
    requires id in w.actions && other != id
    ensures LastGood(Logged(w, id, status, e).logs, other) == LastGood(w.logs, other)
  {
    LastGoodAppend(w.logs, LogRow(id, e.outcome, e.reversal), other);
  }

  /** Observables owned by other actions do not feel a new status and a new row of `id`. */
  lemma LoggedKeepsOthers(w: World, id: Id, status: Status, e: Effect, o: Id)
    requires id in w.actions
    requires o in w.blocked && ObservableFits(w, o) && w.blocked[o].owner != id
    requires o in e.blocked && e.blocked[o] == w.blocked[o]
    ensures ObservableFits(Logged(w, id, status, e), o)
  {
    var owner := w.blocked[o].owner;
    OthersKeepLastGood(w, id, status, e, owner);
    var w' := Logged(w, id, status, e);
    assert w'.blocked[o] == w.blocked[o] && w'.actions[owner] == w.actions[owner];
  }

  lemma ExecuteKeepsBlocks(w: World, id: Id, env: Env)
    requires BlocksFit(w)
    ensures BlocksFit(OrElse(Execute(w, id, env), w))
  {
    var r := Execute(w, id, env);
    if r.Ok? {
      var e := Handle(w, id, w.actions[id].kind, env).value;
      var row := LogRow(id, e.outcome, e.reversal);
      LastGoodAppend(w.logs, row, id);
      forall o | o in r.value.blocked ensures ObservableFits(r.value, o) {
        if o in w.blocked { LoggedKeepsOthers(w, id, StatusOf(e.outcome), e, o); }
      }
      forall a | a in r.value.actions && r.value.actions[a].kind.Block? && r.value.actions[a].status == Executed
        ensures OwnsObservable(r.value, a)
      {
        if a == id {
          assert env.newId in r.value.blocked && r.value.blocked[env.newId].owner == id;
        } else {
          var o :| o in w.blocked && w.blocked[o].owner == a;
          assert r.value.blocked[o] == w.blocked[o];
        }
      }
    }
  }

  lemma RevertKeepsBlocks(w: World, id: Id)
    requires BlocksFit(w)
    ensures BlocksFit(OrElse(Revert(w, id), w))
  {
    var r := Revert(w, id);
    if r.Ok? {
      var info := LastGood(w.logs, id).value.reversal.value;
      var e := Undo(w, w.actions[id].kind, info);
      forall o | o in r.value.blocked ensures ObservableFits(r.value, o) {
        assert ObservableFits(w, o);
        if w.blocked[o].owner != id {
          if info.BlockInfo? && info.observable == o {
            assert w.actions[id].kind.Block? ==> OwnsObservable(w, id);
          }
          LoggedKeepsOthers(w, id, Reverted, e, o);
        }
      }
      forall a | a in r.value.actions && r.value.actions[a].kind.Block? && r.value.actions[a].status == Executed
        ensures OwnsObservable(r.value, a)
      {
        var o :| o in w.blocked && w.blocked[o].owner == a;
        assert r.value.blocked[o].owner == a;
      }
    }
  }

  lemma ProposeKeepsBlocks(w: World, id: Id, kind: Kind)
    requires BlocksFit(w)
    ensures BlocksFit(OrElse(Propose(w, id, kind), w))
  {
    var r := Propose(w, id, kind);
    if r.Ok? {
      forall o | o in r.value.blocked ensures ObservableFits(r.value, o) {
        assert ObservableFits(w, o);
      }
      forall a | a in r.value.actions && r.value.actions[a].kind.Block? && r.value.actions[a].status == Executed
        ensures OwnsObservable(r.value, a)
      {
        var o :| o in w.blocked && w.blocked[o].owner == a;
        assert o in r.value.blocked && r.value.blocked[o].owner == a;
      }
    }
  }

  lemma StepKeepsBlocks(w: World, step: Step)
    requires BlocksFit(w)
    ensures BlocksFit(Apply(w, step))
  {
    match step
    case DoPropose(id, kind) => ProposeKeepsBlocks(w, id, kind);
    case DoExecute(id, env) => ExecuteKeepsBlocks(w, id, env);
    case DoRevert(id) => RevertKeepsBlocks(w, id);
    case Elsewhere(lab) =>
      var w' := w.(lab := lab);
      forall o | o in w'.blocked ensures ObservableFits(w', o) {
        assert ObservableFits(w, o);
      }
      forall a | a in w'.actions && w'.actions[a].kind.Block? && w'.actions[a].status == Executed
        ensures OwnsObservable(w', a)
      {
        var o :| o in w.blocked && w.blocked[o].owner == a;
        assert o in w'.blocked && w'.blocked[o].owner == a;
      }
  }

  lemma {:induction false} RunKeepsBlocks(w: World, steps: seq<Step>)
    requires BlocksFit(w)
    ensures BlocksFit(Run(w, steps))
  {
    if steps != [] {
      RunKeepsBlocks(w, steps[..|steps| - 1]);
      StepKeepsBlocks(Run(w, steps[..|steps| - 1]), steps[|steps| - 1]);
    }
  }

  lemma FitMeansAgree(w: World, value: string)
    requires BlocksFit(w)
    ensures IsBlocked(w, value) <==> HasExecutedBlock(w, value)
  {
    if IsBlocked(w, value) {
      var o :| o in w.blocked && w.blocked[o].active && w.blocked[o].value == value;
      assert IsExecutedBlock(w, w.blocked[o].owner, value);
    }
    if HasExecutedBlock(w, value) {
      var a :| IsExecutedBlock(w, a, value);
      var o :| o in w.blocked && w.blocked[o].owner == a;
      assert ObservableFits(w, o);
    }
  }

  /** In every run a value is blocked in the table exactly when some block action for it stands
      executed: reverting one of two blocks of the same value leaves the other in force. */
  lemma BlocksAgree(w: World, steps: seq<Step>, value: string)
    requires IsFresh(w)
    ensures IsBlocked(Run(w, steps), value) <==> HasExecutedBlock(Run(w, steps), value)
  {
    RunKeepsBlocks(w, steps);
    FitMeansAgree(Run(w, steps), value);
  }

  // ---------------------------------------------------------------------------
  // The log tells the status.
  // ---------------------------------------------------------------------------

  function RowsOf(logs: seq<LogRow>, id: Id): seq<LogRow> {
    if logs == [] then []
    else
      var (front, last) := (logs[..|logs| - 1], logs[|logs| - 1]);
      RowsOf(front, id) + if last.action == id then [last] else []
  }

  /** No row before the execution, one row with the outcome that the status names after it, and
      a second one only after a revert, which follows an execution that went well. */
  ghost predicate Tells(rows: seq<LogRow>, status: Status) {
    match status
    case Proposed => rows == []
    case Reverted => |rows| == 2 && rows[0].outcome == Good && rows[0].reversal.Some? && rows[1].reversal.None?
    case _ => |rows| == 1 && StatusOf(rows[0].outcome) == status
  }

  ghost predicate LogFits(w: World) {
    && (forall a :: a in w.actions ==> Tells(RowsOf(w.logs, a), w.actions[a].status))
    && (forall a :: a !in w.actions ==> RowsOf(w.logs, a) == [])
  }

  lemma RowsOfAppend(logs: seq<LogRow>, row: LogRow, id: Id)
    ensures RowsOf(logs + [row], id) == RowsOf(logs, id) + if row.action == id then [row] else []
  {
    var all := logs + [row];
    assert all[|all| - 1] == row && all[..|all| - 1] == logs;
  }

  /** The newest good row is one of the rows of the action. */
  lemma {:induction false} LastGoodIsRow(logs: seq<LogRow>, id: Id)
    ensures LastGood(logs, id).Some? ==> LastGood(logs, id).value in RowsOf(logs, id)
    ensures LastGood(logs, id).Some? ==> LastGood(logs, id).value.outcome == Good
  {
    if logs != [] {
      LastGoodIsRow(logs[..|logs| - 1], id);
    }
  }

  lemma RowsOfLogged(w: World, id: Id, status: Status, e: Effect, a: Id)
    requires id in w.actions
    ensures RowsOf(Logged(w, id, status, e).logs, a) ==
            RowsOf(w.logs, a) + if id == a then [LogRow(id, e.outcome, e.reversal)] else []
  {
    RowsOfAppend(w.logs, LogRow(id, e.outcome, e.reversal), a);
  }

  lemma LoggedKeepsLog(w: World, id: Id, status: Status, e: Effect)
    requires LogFits(w)
    requires id in w.actions
    requires Tells(RowsOf(w.logs, id) + [LogRow(id, e.outcome, e.reversal)], status)
    ensures LogFits(Logged(w, id, status, e))
  {
    var w' := Logged(w, id, status, e);
    forall a | a in w'.actions ensures Tells(RowsOf(w'.logs, a), w'.actions[a].status) {
      RowsOfLogged(w, id, status, e, a);
    }
    forall a | a !in w'.actions ensures RowsOf(w'.logs, a) == [] {
      RowsOfLogged(w, id, status, e, a);
    }
  }

  lemma ExecuteKeepsLog(w: World, id: Id, env: Env)
    requires LogFits(w)
    ensures LogFits(OrElse(Execute(w, id, env), w))
  {
    if Execute(w, id, env).Ok? {
      var e := Handle(w, id, w.actions[id].kind, env).value;
      assert RowsOf(w.logs, id) == [];
      LoggedKeepsLog(w, id, StatusOf(e.outcome), e);
    }
  }

  lemma RevertKeepsLog(w: World, id: Id)
    requires LogFits(w)
    ensures LogFits(OrElse(Revert(w, id), w))
  {
    if Revert(w, id).Ok? {
      LastGoodIsRow(w.logs, id);
      var prior := LastGood(w.logs, id).value;
      assert RowsOf(w.logs, id) == [prior];
      LoggedKeepsLog(w, id, Reverted, Undo(w, w.actions[id].kind, prior.reversal.value));
    }
  }

  lemma StepKeepsLog(w: World, step: Step)
    requires LogFits(w)
    ensures LogFits(Apply(w, step))
  {
    match step
    case DoPropose(id, kind) =>
      assert forall a :: a !in w.actions ==> RowsOf(w.logs, a) == [];
    case DoExecute(id, env) => ExecuteKeepsLog(w, id, env);
    case DoRevert(id) => RevertKeepsLog(w, id);
    case Elsewhere(lab) =>
  }

  lemma {:induction false} RunKeepsLog(w: World, steps: seq<Step>)
    requires LogFits(w)
    ensures LogFits(Run(w, steps))
  {
    if steps != [] {
      RunKeepsLog(w, steps[..|steps| - 1]);
      StepKeepsLog(Run(w, steps[..|steps| - 1]), steps[|steps| - 1]);
    }
  }

  /** In every run the rows of an action tell its status: executed at most once, reverted at most
      once and only after an execution that went well. */
  lemma LogTellsStatus(w: World, steps: seq<Step>, a: Id)
    requires IsFresh(w)
    requires a in Run(w, steps).actions
    ensures Tells(RowsOf(Run(w, steps).logs, a), Run(w, steps).actions[a].status)
  {
    RunKeepsLog(w, steps);
  }

  /** An action waits, is executed once with some outcome, and may be reverted after one that
      went well. */
  predicate Follows(s: Status, t: Status) {
    || s == t
    || (s == Proposed && t != Reverted)
    || (s == Executed && t == Reverted)
  }

  lemma StepFollows(w: World, step: Step, a: Id)
    requires a in w.actions
    ensures a in Apply(w, step).actions
    ensures Apply(w, step).actions[a].kind == w.actions[a].kind
    ensures Follows(w.actions[a].status, Apply(w, step).actions[a].status)
  {
  }

  /** Nothing leads out of a failed, skipped, partial or reverted action, and no action is ever
      proposed again. */
  lemma {:induction false} SettledForEver(w: World, steps: seq<Step>, a: Id)
    requires a in w.actions
    ensures a in Run(w, steps).actions
    ensures Run(w, steps).actions[a].kind == w.actions[a].kind
    ensures w.actions[a].status !in {Proposed, Executed} ==> Run(w, steps).actions[a] == w.actions[a]
    ensures w.actions[a].status == Executed ==> Run(w, steps).actions[a].status in {Executed, Reverted}
  {
    if steps != [] {
      SettledForEver(w, steps[..|steps| - 1], a);
      StepFollows(Run(w, steps[..|steps| - 1]), steps[|steps| - 1], a);
    }
  }
}
