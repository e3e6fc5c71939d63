/** Reverting in any order: once everything executed is reverted, sessions and blocks are back,
    whatever the order, and the notes of a host are back exactly if its mark is. */
module ResponseAnyOrder {
  import opened Options
  import opened ResponseModel
  import opened ResponseRuns
  import opened ResponseUndo
  import opened Text

  /** What a standing action holds: its kind, and the record that its revert will use. */
  datatype Hold = Hold(kind: Kind, info: Reversal)

  predicate Agrees(h: Hold) {
    match h.kind
    case Block(_, _) => h.info.BlockInfo?
    case Flag(_) => h.info.FlagInfo?
    case Invalidate(_, _) => h.info.SessionInfo?
    case Other(_, _) => false
  }

  function HoldOf(w: World, id: Id): Option<Hold> {
    var prior := LastGood(w.logs, id);
    if Standing(w, id) && prior.Some? && prior.value.reversal.Some?
    then Some(Hold(w.actions[id].kind, prior.value.reversal.value))
    else None
  }

  function Holding(w: World, ids: set<Id>): map<Id, Hold> {
    map id | id in ids && HoldOf(w, id).Some? :: HoldOf(w, id).value
  }

  // ---------------------------------------------------------------------------
  // Sessions.
  // ---------------------------------------------------------------------------

  predicate IsHeld(holds: map<Id, Hold>, info: Reversal) {
    exists id :: id in holds && holds[id].info == info
  }

  predicate WasActive(was: map<Id, Session>, s: Id) {
    s in was ==> IsActive(was, s)
  }

  /** A held session is inactive, was active before, and is held once; one that is not held is as
      active as it was, and active if it is new. */
  ghost predicate SessionsFit(was: map<Id, Session>, now: map<Id, Session>, holds: map<Id, Hold>) {
    && was.Keys <= now.Keys
    && (forall id :: id in holds && holds[id].info.SessionInfo? ==>
          var s := holds[id].info.session; s in now && !IsActive(now, s) && WasActive(was, s))
    && (forall a, b :: a in holds && b in holds && a != b && holds[a].info.SessionInfo? ==> holds[a].info != holds[b].info)
    && (forall s :: s in now && !IsHeld(holds, SessionInfo(s)) ==> (IsActive(now, s) <==> WasActive(was, s)))
  }

  lemma SessionTaken(was: map<Id, Session>, now: map<Id, Session>, holds: map<Id, Hold>, id: Id, h: Hold, row: Session)
    requires SessionsFit(was, now, holds) && id !in holds && h.info.SessionInfo? && row.invalidatedAt.Some?
    requires h.info.session in now ==> IsActive(now, h.info.session)
    ensures SessionsFit(was, now[h.info.session := row], holds[id := h])
  {
    var s := h.info.session;
    var (now', holds') := (now[s := row], holds[id := h]);
    assert !IsHeld(holds, SessionInfo(s));
    forall t | t in now' && !IsHeld(holds', SessionInfo(t)) ensures IsActive(now', t) <==> WasActive(was, t) {
      assert holds'[id].info == SessionInfo(s);
      assert t != s && forall x :: x in holds ==> holds'[x] == holds[x];
      assert !IsHeld(holds, SessionInfo(t)) && now'[t] == now[t];
    }
  }

  lemma SessionGivenBack(was: map<Id, Session>, now: map<Id, Session>, holds: map<Id, Hold>, id: Id)
    requires SessionsFit(was, now, holds) && id in holds && holds[id].info.SessionInfo?
    ensures var s := holds[id].info.session;
            s in now && SessionsFit(was, now[s := now[s].(invalidatedAt := None)], holds - {id})
  {
    var s := holds[id].info.session;
    var (now', rest) := (now[s := now[s].(invalidatedAt := None)], holds - {id});
    forall t | t in now' && !IsHeld(rest, SessionInfo(t)) ensures IsActive(now', t) <==> WasActive(was, t) {
      if t != s {
        assert forall x :: x in holds && x != id ==> x in rest && rest[x] == holds[x];
        assert !IsHeld(holds, SessionInfo(t)) && now'[t] == now[t];
      }
    }
  }

  /** Holding or giving back something else than a session changes nothing for them. */
  lemma SessionsOther(was: map<Id, Session>, now: map<Id, Session>, holds: map<Id, Hold>, id: Id, h: Hold)
    requires SessionsFit(was, now, holds) && !h.info.SessionInfo?
    ensures id !in holds ==> SessionsFit(was, now, holds[id := h])
    ensures id in holds && holds[id] == h ==> SessionsFit(was, now, holds - {id})
  {
    var (more, less) := (holds[id := h], holds - {id});
    forall s ensures id !in holds && IsHeld(holds, SessionInfo(s)) ==> IsHeld(more, SessionInfo(s)) {
      if id !in holds && IsHeld(holds, SessionInfo(s)) {
        var x :| x in holds && holds[x].info == SessionInfo(s);
        assert x in more && more[x].info == SessionInfo(s);
      }
    }
    forall s ensures id in holds && holds[id] == h && IsHeld(holds, SessionInfo(s)) ==> IsHeld(less, SessionInfo(s)) {
      if id in holds && holds[id] == h && IsHeld(holds, SessionInfo(s)) {
        var x :| x in holds && holds[x].info == SessionInfo(s);
        assert x in less && less[x].info == SessionInfo(s);
      }
    }
  }

  // ---------------------------------------------------------------------------
  // Blocks.
  // ---------------------------------------------------------------------------

  /** What was there is as it was; a held row is new; a new row that is active is held. */
  ghost predicate BlocksFitHolds(was: map<Id, Observable>, now: map<Id, Observable>, holds: map<Id, Hold>) {
    && was.Keys <= now.Keys
    && (forall o :: o in was ==> now[o] == was[o])
    && (forall id :: id in holds && holds[id].info.BlockInfo? ==>
          holds[id].info.observable in now && holds[id].info.observable !in was)
    && (forall o :: o in now && o !in was && now[o].active ==> IsHeld(holds, BlockInfo(o)))
  }

  lemma BlockTaken(was: map<Id, Observable>, now: map<Id, Observable>, holds: map<Id, Hold>, id: Id, h: Hold, row: Observable)
    requires BlocksFitHolds(was, now, holds) && id !in holds && h.info.BlockInfo? && h.info.observable !in now
    ensures BlocksFitHolds(was, now[h.info.observable := row], holds[id := h])
  {
    var (now', holds') := (now[h.info.observable := row], holds[id := h]);
    forall o | o in now' && o !in was && now'[o].active ensures IsHeld(holds', BlockInfo(o)) {
      if o == h.info.observable {
        assert id in holds' && holds'[id].info == BlockInfo(o);
      } else {
        var x :| x in holds && holds[x].info == BlockInfo(o);
        assert x in holds' && holds'[x].info == BlockInfo(o);
      }
    }
  }

  lemma BlockGivenBack(was: map<Id, Observable>, now: map<Id, Observable>, holds: map<Id, Hold>, id: Id)
    requires BlocksFitHolds(was, now, holds) && id in holds && holds[id].info.BlockInfo?
    ensures var o := holds[id].info.observable;
            o in now && BlocksFitHolds(was, now[o := now[o].(active := false)], holds - {id})
  {
    var o := holds[id].info.observable;
    var (now', rest) := (now[o := now[o].(active := false)], holds - {id});
    forall p | p in now' && p !in was && now'[p].active ensures IsHeld(rest, BlockInfo(p)) {
      var x :| x in holds && holds[x].info == BlockInfo(p);
      assert x in rest && rest[x].info == BlockInfo(p);
    }
  }

  lemma BlocksOther(was: map<Id, Observable>, now: map<Id, Observable>, holds: map<Id, Hold>, id: Id, h: Hold)
    requires BlocksFitHolds(was, now, holds) && !h.info.BlockInfo?
    ensures id !in holds ==> BlocksFitHolds(was, now, holds[id := h])
    ensures id in holds && holds[id] == h ==> BlocksFitHolds(was, now, holds - {id})
  {
    forall o | o in now && o !in was && now[o].active
      ensures id !in holds ==> IsHeld(holds[id := h], BlockInfo(o))
      ensures id in holds && holds[id] == h ==> IsHeld(holds - {id}, BlockInfo(o))
    {
      var x :| x in holds && holds[x].info == BlockInfo(o);
      if id !in holds { assert x in holds[id := h] && holds[id := h][x].info == BlockInfo(o); }
      if id in holds && holds[id] == h { assert x in holds - {id} && (holds - {id})[x].info == BlockInfo(o); }
    }
  }

  // ---------------------------------------------------------------------------
  // Notes.
  // ---------------------------------------------------------------------------

  /** The notes from before, or those with the mark. */
  predicate OneOfTwo(was: Option<string>, notes: string) {
    notes == Notes(was) || notes == Notes(Flagged(was))
  }

  ghost predicate NotesFit(was: map<string, Option<string>>, now: map<string, Option<string>>, holds: map<Id, Hold>) {
    && was.Keys == now.Keys
    && (forall h :: h in was ==> OneOfTwo(was[h], Notes(now[h])))
    && (forall id :: id in holds && holds[id].info.FlagInfo? ==>
          holds[id].kind.Flag? && (holds[id].kind.host in was ==> OneOfTwo(was[holds[id].kind.host], holds[id].info.priorNotes)))
  }

  lemma FlaggedTwice(was: Option<string>, now: Option<string>)
    requires OneOfTwo(was, Notes(now))
    ensures OneOfTwo(was, Notes(Flagged(now)))
  {
    FlaggedCarriesMarker(was);
  }

  // ---------------------------------------------------------------------------
  // Steps and runs.
  // ---------------------------------------------------------------------------

  /** Every standing action holds what its kind records. */
  predicate AllHold(w: World, ids: set<Id>) {
    forall id :: id in ids && Standing(w, id) ==> HoldOf(w, id).Some? && Agrees(HoldOf(w, id).value)
  }

  ghost predicate Fits(was: World, now: World, ids: set<Id>) {
    && AllHold(now, ids)
    && SessionsFit(was.lab.sessions, now.lab.sessions, Holding(now, ids))
    && BlocksFitHolds(was.blocked, now.blocked, Holding(now, ids))
    && NotesFit(was.lab.hosts, now.lab.hosts, Holding(now, ids))
  }

  lemma HoldsOfOthers(w: World, w': World, ids: set<Id>, id: Id)
    requires id in ids && OthersUntouched(w, w', {id})
    ensures Holding(w', ids) == match HoldOf(w', id)
                                case Some(h) => Holding(w, ids)[id := h]
                                case None => Holding(w, ids) - {id}
  {
    assert forall x :: x in ids && x != id ==> Untouched(w, w', x);
  }

  /** Tables that fit, with one action more that holds something. */
  lemma TakenFits(was: World, w: World, ids: set<Id>, id: Id, env: Env)
    requires Fits(was, w, ids) && id in ids && id in w.actions && w.actions[id].status == Proposed
    requires IsReversible(w.actions[id].kind)
    requires Handle(w, id, w.actions[id].kind, env).Some? && Handle(w, id, w.actions[id].kind, env).value.outcome == Good
    ensures var e := Handle(w, id, w.actions[id].kind, env).value;
            && e.reversal.Some? && Agrees(Hold(w.actions[id].kind, e.reversal.value))
            && var holds := Holding(w, ids)[id := Hold(w.actions[id].kind, e.reversal.value)];
               && SessionsFit(was.lab.sessions, e.lab.sessions, holds)
               && BlocksFitHolds(was.blocked, e.blocked, holds)
               && NotesFit(was.lab.hosts, e.lab.hosts, holds)
  {
    var (kind, holds) := (w.actions[id].kind, Holding(w, ids));
    var e := Handle(w, id, kind, env).value;
    var h := Hold(kind, e.reversal.value);
    match kind
    case Block(_, value) =>
      BlockTaken(was.blocked, w.blocked, holds, id, h, Observable(value, id, true));
      SessionsOther(was.lab.sessions, w.lab.sessions, holds, id, h);
    case Flag(host) =>
      BlocksOther(was.blocked, w.blocked, holds, id, h);
      SessionsOther(was.lab.sessions, w.lab.sessions, holds, id, h);
      FlaggedTwice(was.lab.hosts[host], w.lab.hosts[host]);
    case Invalidate(_, _) =>
      BlocksOther(was.blocked, w.blocked, holds, id, h);
      SessionTaken(was.lab.sessions, w.lab.sessions, holds, id, h, e.lab.sessions[h.info.session]);
  }

  lemma ExecuteFits(was: World, w: World, ids: set<Id>, id: Id, env: Env)
    requires Fits(was, w, ids) && id in ids
    ensures Fits(was, Apply(w, DoExecute(id, env)), ids)
  {
    var w' := Apply(w, DoExecute(id, env));
    if Execute(w, id, env).Ok? {
      OneTouched(w, w', id, DoExecute(id, env));
      HoldsOfOthers(w, w', ids, id);
      var e := Handle(w, id, w.actions[id].kind, env).value;
      LastGoodAppend(w.logs, LogRow(id, e.outcome, e.reversal), id);
      OthersStand(w, w', ids, id);
      if e.outcome == Good && IsReversible(w.actions[id].kind) {
        TakenFits(was, w, ids, id, env);
      } else {
        NotGoodChangesNothing(w, id, env);
        assert id !in Holding(w, ids) && Holding(w, ids) - {id} == Holding(w, ids);
      }
    }
  }

  lemma OthersStand(w: World, w': World, ids: set<Id>, id: Id)
    requires OthersUntouched(w, w', {id}) && AllHold(w, ids)
    ensures AllHold(w', ids - {id})
  {
    forall x | x in ids && x != id ensures Standing(w', x) ==> HoldOf(w', x).Some? && Agrees(HoldOf(w', x).value) {
      assert Untouched(w, w', x);
    }
  }

  lemma GivenBackFits(was: World, w: World, ids: set<Id>, id: Id)
    requires Fits(was, w, ids) && id in ids && Standing(w, id)
    ensures var (h, holds) := (HoldOf(w, id).value, Holding(w, ids) - {id});
            var e := Undo(w, h.kind, h.info);
            && SessionsFit(was.lab.sessions, e.lab.sessions, holds)
            && BlocksFitHolds(was.blocked, e.blocked, holds)
            && NotesFit(was.lab.hosts, e.lab.hosts, holds)
  {
    var (h, holds) := (HoldOf(w, id).value, Holding(w, ids));
    assert id in holds && holds[id] == h && Agrees(h);
    match h.kind
    case Block(_, _) =>
      BlockGivenBack(was.blocked, w.blocked, holds, id);
      SessionsOther(was.lab.sessions, w.lab.sessions, holds, id, h);
    case Flag(_) =>
      BlocksOther(was.blocked, w.blocked, holds, id, h);
      SessionsOther(was.lab.sessions, w.lab.sessions, holds, id, h);
    case Invalidate(_, _) =>
      BlocksOther(was.blocked, w.blocked, holds, id, h);
      SessionGivenBack(was.lab.sessions, w.lab.sessions, holds, id);
  }

  lemma RevertFits(was: World, w: World, ids: set<Id>, id: Id)
    requires Fits(was, w, ids) && id in ids
    ensures Fits(was, Apply(w, DoRevert(id)), ids)
  {
    var w' := Apply(w, DoRevert(id));
    if Standing(w, id) {
      OneTouched(w, w', id, DoRevert(id));
      HoldsOfOthers(w, w', ids, id);
      OthersStand(w, w', ids, id);
      GivenBackFits(was, w, ids, id);
      assert w'.actions[id].status == Reverted;
    } else {
      assert w' == w;
    }
  }

  /** The step executes or reverts one of these actions. */
  predicate Concerns(step: Step, ids: set<Id>) {
    (step.DoExecute? || step.DoRevert?) && step.id in ids
  }

  lemma {:induction false} RunFits(w: World, steps: seq<Step>, ids: set<Id>)
    requires NoneStanding(w, ids)
    requires forall i :: 0 <= i < |steps| ==> Concerns(steps[i], ids)
    ensures Fits(w, Run(w, steps), ids)
  {
    if steps == [] {
      assert Holding(w, ids) == map[];
    } else {
      var (front, step) := (steps[..|steps| - 1], steps[|steps| - 1]);
      RunFits(w, front, ids);
      match step
      case DoExecute(id, env) => ExecuteFits(w, Run(w, front), ids, id, env);
      case DoRevert(id) => RevertFits(w, Run(w, front), ids, id);
      case _ =>
    }
  }

  /** Any sequence of executions and reverts, in any order, after which none of its actions stands:
      the sessions that were there are as active as they were, and the blocks are as they were. A
      host has its notes back if and only if it is marked now exactly if it was marked before. */
  lemma AnyOrderRestores(w: World, steps: seq<Step>, ids: set<Id>)
    requires NoneStanding(w, ids) && NoneStanding(Run(w, steps), ids)
    requires forall i :: 0 <= i < |steps| ==> Concerns(steps[i], ids)
    ensures var w' := Run(w, steps);
            && SameSessions(w.lab, w'.lab) && SameBlocks(w.blocked, w'.blocked)
            && w'.lab.hosts.Keys == w.lab.hosts.Keys
            && forall h :: h in w.lab.hosts ==>
                 (Notes(w'.lab.hosts[h]) == Notes(w.lab.hosts[h]) <==>
                  (Contains(Notes(w'.lab.hosts[h]), MARKER) <==> Contains(Notes(w.lab.hosts[h]), MARKER)))
  {
    RunFits(w, steps, ids);
    var w' := Run(w, steps);
    assert Holding(w', ids) == map[];
    forall h | h in w.lab.hosts
      ensures Notes(w'.lab.hosts[h]) == Notes(w.lab.hosts[h]) <==>
              (Contains(Notes(w'.lab.hosts[h]), MARKER) <==> Contains(Notes(w.lab.hosts[h]), MARKER))
    {
      FlaggedCarriesMarker(w.lab.hosts[h]);
    }
    NothingHeld(w, w');
  }

  lemma NothingHeld(was: World, now: World)
    requires SessionsFit(was.lab.sessions, now.lab.sessions, map[]) && BlocksFitHolds(was.blocked, now.blocked, map[])
    ensures SameSessions(was.lab, now.lab) && SameBlocks(was.blocked, now.blocked)
  {
    var none: map<Id, Hold> := map[];
    assert forall info :: !IsHeld(none, info);
  }

  // ---------------------------------------------------------------------------
  // The last revert of a host's flags decides its notes.
  // ---------------------------------------------------------------------------

  /** The step executes or reverts a flag of this host. */
  predicate Flags(w: World, step: Step, host: string) {
    (step.DoExecute? || step.DoRevert?) && step.id in w.actions && w.actions[step.id].kind == Flag(host)
  }

  lemma OtherExecuteKeepsNotes(w: World, id: Id, env: Env, host: string)
    requires host in w.lab.hosts && (id in w.actions ==> w.actions[id].kind != Flag(host))
    ensures var w' := Apply(w, DoExecute(id, env));
            SameKinds(w, w') && host in w'.lab.hosts && w'.lab.hosts[host] == w.lab.hosts[host]
  {
  }

  lemma OtherRevertKeepsNotes(w: World, id: Id, host: string)
    requires host in w.lab.hosts && (id in w.actions ==> w.actions[id].kind != Flag(host))
    ensures var w' := Apply(w, DoRevert(id));
            SameKinds(w, w') && host in w'.lab.hosts && w'.lab.hosts[host] == w.lab.hosts[host]
  {
  }

  lemma {:induction false} OthersKeepNotes(was: World, w: World, steps: seq<Step>, ids: set<Id>, host: string)
    requires SameKinds(was, w) && host in w.lab.hosts
    requires forall i :: 0 <= i < |steps| ==> Concerns(steps[i], ids) && !Flags(was, steps[i], host)
    ensures SameKinds(was, Run(w, steps)) && host in Run(w, steps).lab.hosts
    ensures Run(w, steps).lab.hosts[host] == w.lab.hosts[host]
  {
    if steps != [] {
      var (front, step) := (steps[..|steps| - 1], steps[|steps| - 1]);
      OthersKeepNotes(was, w, front, ids, host);
      if step.DoExecute? {
        OtherExecuteKeepsNotes(Run(w, front), step.id, step.env, host);
      } else {
        OtherRevertKeepsNotes(Run(w, front), step.id, host);
      }
    }
  }

  /** The notes that the revert of a standing flag will put back. */
  function RecordedNotes(w: World, id: Id): Option<string> {
    var prior := LastGood(w.logs, id);
    if prior.Some? && prior.value.reversal.Some? && prior.value.reversal.value.FlagInfo?
    then Some(prior.value.reversal.value.priorNotes)
    else None
  }

  /** They are the notes from the beginning, or those with the mark. */
  lemma RecordedIsOneOfTwo(w: World, steps: seq<Step>, ids: set<Id>, id: Id, host: string)
    requires NoneStanding(w, ids) && id in ids && host in w.lab.hosts
    requires forall i :: 0 <= i < |steps| ==> Concerns(steps[i], ids)
    requires Standing(Run(w, steps), id) && Run(w, steps).actions[id].kind == Flag(host)
    ensures RecordedNotes(Run(w, steps), id).Some?
    ensures OneOfTwo(w.lab.hosts[host], RecordedNotes(Run(w, steps), id).value)
    ensures host in Run(w, steps).lab.hosts
  {
    RunFits(w, steps, ids);
    var mid := Run(w, steps);
    assert id in Holding(mid, ids) && Holding(mid, ids)[id] == HoldOf(mid, id).value;
  }

  lemma RevertPutsBack(w: World, id: Id, host: string)
    requires Standing(w, id) && w.actions[id].kind == Flag(host) && host in w.lab.hosts
    requires RecordedNotes(w, id).Some?
    ensures Apply(w, DoRevert(id)).lab.hosts == w.lab.hosts[host := RecordedNotes(w, id)]
    ensures SameKinds(w, Apply(w, DoRevert(id)))
  {
  }

  /** Executions and reverts in any order, of which the revert of `id` is the last that concerns a flag
      of the host: afterwards the host has the notes that this action recorded, and those are the
      notes from the beginning if and only if they carry the mark exactly if the host did. Both are
      there to be looked up before the revert. */
  lemma LastRevertDecides(w: World, front: seq<Step>, id: Id, tail: seq<Step>, ids: set<Id>, host: string)
    requires NoneStanding(w, ids) && id in ids && host in w.lab.hosts
    requires forall i :: 0 <= i < |front| ==> Concerns(front[i], ids)
    requires Standing(Run(w, front), id) && Run(w, front).actions[id].kind == Flag(host)
    requires forall i :: 0 <= i < |tail| ==> Concerns(tail[i], ids) && !Flags(Run(w, front), tail[i], host)
    ensures var (recorded, after) := (RecordedNotes(Run(w, front), id), Run(w, front + [DoRevert(id)] + tail).lab.hosts);
            && recorded.Some? && host in after && Notes(after[host]) == recorded.value
            && (Notes(after[host]) == Notes(w.lab.hosts[host]) <==>
                (Contains(recorded.value, MARKER) <==> Contains(Notes(w.lab.hosts[host]), MARKER)))
  {
    var mid := Run(w, front);
    RecordedIsOneOfTwo(w, front, ids, id, host);
    RevertPutsBack(mid, id, host);
    FlaggedCarriesMarker(w.lab.hosts[host]);
    RunAppend(w, front, [DoRevert(id)]);
    RunOne(mid, DoRevert(id));
    RunAppend(w, front + [DoRevert(id)], tail);
    OthersKeepNotes(mid, Apply(mid, DoRevert(id)), tail, ids, host);
  }
}
