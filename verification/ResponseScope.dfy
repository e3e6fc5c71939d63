/** The lab scope: no action is proposed or carried out against a host or user that is not
    registered, and what exactly a handler can do otherwise. */
module ResponseScope {
  import opened Options
  import opened Results
  import opened ResponseModel
  import opened ResponseRuns
  import opened Text

  /** The kind names a host or a user that the lab does not have: the host of a flag, a quarantine or
      the killing of a process, the user of a session. */
  ghost predicate AssetMissing(lab: Lab, kind: Kind) {
    || (exists host :: host != "" && host !in lab.hosts && (kind == Flag(host) || (kind.Other? && kind.host == host)))
    || (exists user, host :: user != "" && user !in lab.users && kind == Invalidate(user, host))
  }

  lemma ScopeIff(lab: Lab, kind: Kind)
    ensures InScope(lab, kind) <==> !AssetMissing(lab, kind)
  {
    match kind
    case Invalidate(user, host) => assert kind == Invalidate(user, host);
    case _ =>
  }

  /** A proposal is refused as out of scope exactly when its asset is missing; else it goes through
      exactly when the id is new. */
  lemma ProposalScopeIff(w: World, id: Id, kind: Kind)
    ensures Propose(w, id, kind) == Err(OutOfScope) <==> AssetMissing(w.lab, kind)
    ensures Propose(w, id, kind).Ok? <==> !AssetMissing(w.lab, kind) && id !in w.actions
    ensures Propose(w, id, kind).Ok? ==>
              Apply(w, DoPropose(id, kind)) == w.(actions := w.actions[id := Action(kind, Proposed)])
  {
    ScopeIff(w.lab, kind);
  }

  /** The execution of a proposed action is refused as out of scope exactly when its asset is missing by
      then, and changes nothing. */
  lemma ExecutionScopeIff(w: World, id: Id, env: Env)
    requires id in w.actions && w.actions[id].status == Proposed
    ensures Execute(w, id, env) == Err(OutOfScope) <==> AssetMissing(w.lab, w.actions[id].kind)
    ensures AssetMissing(w.lab, w.actions[id].kind) ==> Apply(w, DoExecute(id, env)) == w
  {
    ScopeIff(w.lab, w.actions[id].kind);
  }

  // ---------------------------------------------------------------------------
  // Over every run.
  // ---------------------------------------------------------------------------

  /** Step `i` of the run executed action `a`, which was proposed and whose asset was there. */
  ghost predicate CarriedOut(w: World, steps: seq<Step>, a: Id, i: nat) {
    && i < |steps| && steps[i].DoExecute? && steps[i].id == a
    && var before := Run(w, steps[..i]);
       && a in before.actions && before.actions[a].status == Proposed
       && !AssetMissing(before.lab, before.actions[a].kind)
       && Execute(before, a, steps[i].env).Ok?
  }

  /** Step `i` of the run proposed action `a`, whose asset was there. */
  ghost predicate PutForward(w: World, steps: seq<Step>, a: Id, i: nat) {
    && i < |steps| && steps[i].DoPropose? && steps[i].id == a
    && a !in Run(w, steps[..i]).actions && !AssetMissing(Run(w, steps[..i]).lab, steps[i].kind)
  }

  lemma StepCarriesOut(w: World, step: Step, a: Id)
    requires a in Apply(w, step).actions && Apply(w, step).actions[a].status != Proposed
    requires a in w.actions ==> w.actions[a].status == Proposed
    ensures step.DoExecute? && step.id == a && a in w.actions && Execute(w, a, step.env).Ok?
    ensures !AssetMissing(w.lab, w.actions[a].kind)
  {
    if a in w.actions { ScopeIff(w.lab, w.actions[a].kind); }
  }

  /** In every run, with whatever else is done to the lab tables in between: an action that is no longer
      proposed was executed at a moment when its asset was registered. */
  lemma {:induction false} OutcomeInScope(w: World, steps: seq<Step>, a: Id) returns (i: nat)
    requires w.actions == map[] && a in Run(w, steps).actions && Run(w, steps).actions[a].status != Proposed
    ensures CarriedOut(w, steps, a, i)
  {
    var n := |steps| - 1;
    var front := steps[..n];
    var was := Run(w, front);
    if a in was.actions && was.actions[a].status != Proposed {
      i := OutcomeInScope(w, front, a);
      assert front[..i] == steps[..i];
    } else {
      StepCarriesOut(was, steps[n], a);
      i := n;
    }
  }

  /** And every action there is was proposed at a moment when its asset was registered. */
  lemma {:induction false} ProposedInScope(w: World, steps: seq<Step>, a: Id) returns (i: nat)
    requires w.actions == map[] && a in Run(w, steps).actions
    ensures PutForward(w, steps, a, i) && steps[i].kind == Run(w, steps).actions[a].kind
  {
    var n := |steps| - 1;
    var front := steps[..n];
    var was := Run(w, front);
    if a in was.actions {
      i := ProposedInScope(w, front, a);
      assert front[..i] == steps[..i];
      StepFollows(was, steps[n], a);
    } else {
      ProposalScopeIff(was, steps[n].id, steps[n].kind);
      i := n;
    }
  }

  // ---------------------------------------------------------------------------
  // When a handler succeeds.
  // ---------------------------------------------------------------------------

  /** What each handler asks for, beyond the scope. */
  predicate CanSucceed(lab: Lab, kind: Kind) {
    match kind
    case Block(what, value) => what in ["ip", "domain", "hash", "file"] && value != ""
    case Flag(host) => host in lab.hosts && host != ""
    case Invalidate(user, host) =>
      && user in lab.users && user in lab.userEntities && user != ""
      && host in lab.hosts && host in lab.hostEntities && host != ""
    case Other(_, outcome) => outcome == Good
  }

  /** An execution that is let through ends as executed exactly when the handler has what it asks for;
      a block, a flag or an invalidation that has not ends as failed, and the tables stay as they were. */
  lemma ExecutedIff(w: World, id: Id, env: Env)
    requires Execute(w, id, env).Ok?
    ensures var (kind, after) := (w.actions[id].kind, Apply(w, DoExecute(id, env)));
            && (after.actions[id].status == Executed <==> CanSucceed(w.lab, kind))
            && (!kind.Other? && !CanSucceed(w.lab, kind) ==>
                  after.actions[id].status == Failed && after.blocked == w.blocked && after.lab == w.lab)
            && (kind.Other? ==> after.blocked == w.blocked && after.lab == w.lab)
            && |after.logs| == |w.logs| + 1
            && (after.logs[|w.logs|].outcome == Good <==> after.actions[id].status == Executed)
            && (after.logs[|w.logs|].outcome == Bad <==> after.actions[id].status == Failed)
            && (after.logs[|w.logs|].outcome == Skip <==> after.actions[id].status == Skipped)
            && (after.logs[|w.logs|].outcome == Part <==> after.actions[id].status == Partial)
  {
  }

  /** The session that an invalidation takes is of that user on that host; it is the newest active one,
      or one opened at that moment if there is none. */
  lemma NewestInvalidated(w: World, id: Id, user: string, host: string, env: Env) returns (s: Id)
    requires Execute(w, id, env).Ok? && w.actions[id].kind == Invalidate(user, host) && CanSucceed(w.lab, w.actions[id].kind)
    ensures var after := Apply(w, DoExecute(id, env));
            && after.logs[|after.logs| - 1] == LogRow(id, Good, Some(SessionInfo(s)))
            && s in after.lab.sessions && after.lab.sessions[s].user == w.lab.userEntities[user]
            && after.lab.sessions[s].host == w.lab.hostEntities[host]
            && after.lab.sessions[s].invalidatedAt == Some(env.now)
            && (s in w.lab.sessions ==> w.lab.sessions[s].invalidatedAt.None?
                                        && after.lab.sessions[s].openedAt == w.lab.sessions[s].openedAt)
            && (s !in w.lab.sessions ==> after.lab.sessions[s].openedAt == env.now)
            && (forall t :: t in w.lab.sessions && w.lab.sessions[t].invalidatedAt.None?
                            && w.lab.sessions[t].user == w.lab.userEntities[user]
                            && w.lab.sessions[t].host == w.lab.hostEntities[host] ==>
                              s in w.lab.sessions && w.lab.sessions[t].openedAt <= w.lab.sessions[s].openedAt)
  {
    s := if env.answer.Some? then env.answer.value else env.newId;
  }

  /** The row, the host or the session that an execution recorded is there. */
  predicate CanUndo(w: World, kind: Kind, info: Reversal) {
    || (kind.Block? && info.BlockInfo? && info.observable in w.blocked)
    || (kind.Flag? && info.FlagInfo? && kind.host in w.lab.hosts)
    || (kind.Invalidate? && info.SessionInfo? && info.session in w.lab.sessions)
  }

  /** A revert that is let through ends as reverted in any case; it went well exactly when what the
      execution recorded is still there, and else no table changes. */
  lemma RevertedIff(w: World, id: Id)
    requires Revert(w, id).Ok?
    ensures var (after, n) := (Apply(w, DoRevert(id)), |w.logs|);
            && after.actions[id].status == Reverted && |after.logs| == n + 1
            && (if CanUndo(w, w.actions[id].kind, LastGood(w.logs, id).value.reversal.value)
                then after.logs[n].outcome == Good
                else after.logs[n].outcome == Bad && after.blocked == w.blocked && after.lab == w.lab)
  {
  }

  // ---------------------------------------------------------------------------
  // The notes of a flagged host.
  // ---------------------------------------------------------------------------

  /** White space from `i` to before `j`. */
  predicate IsBlank(s: string, i: nat, j: nat) {
    forall k :: i <= k < j && k < |s| ==> IsSpace(s[k])
  }

  /** What is left after stripping is between `i` and `j`, with nothing but white space on either side
      and something else at both its ends. */
  predicate IsTrimmed(s: string, i: nat, j: nat) {
    && i <= j <= |s| && IsBlank(s, 0, i) && IsBlank(s, j, |s|)
    && (i < j ==> !IsSpace(s[i]) && !IsSpace(s[j - 1]))
  }

  lemma TrimLeft(s: string, i: nat, j: nat)
    requires s != "" && IsSpace(s[0]) && IsTrimmed(s[1..], i, j)
    ensures IsTrimmed(s, i + 1, j + 1) && s[i + 1..j + 1] == s[1..][i..j]
  {
    var rest := s[1..];
    forall k | 0 < k < |s| ensures rest[k - 1] == s[k] {}
    forall k | 0 <= k < |rest| ensures rest[k] == s[k + 1] {}
  }

  lemma TrimRight(s: string, i: nat, j: nat)
    requires s != "" && IsSpace(s[|s| - 1]) && IsTrimmed(s[..|s| - 1], i, j)
    ensures IsTrimmed(s, i, j) && s[i..j] == s[..|s| - 1][i..j]
  {
    var front := s[..|s| - 1];
    forall k | 0 <= k < |front| ensures front[k] == s[k] {}
    forall k | j <= k < |s| ensures IsSpace(s[k]) {
      if k < |front| { assert IsSpace(front[k]); }
    }
    forall k | 0 <= k < i ensures IsSpace(s[k]) {
      assert IsSpace(front[k]);
    }
  }

  lemma {:induction false} StripTrims(s: string) returns (i: nat, j: nat)
    ensures IsTrimmed(s, i, j) && Strip(s) == s[i..j]
  {
    if s != "" && IsSpace(s[0]) {
      i, j := StripTrims(s[1..]);
      TrimLeft(s, i, j);
      i, j := i + 1, j + 1;
    } else if s != "" && IsSpace(s[|s| - 1]) {
      i, j := StripTrims(s[..|s| - 1]);
      TrimRight(s, i, j);
    } else {
      i, j := 0, |s|;
    }
  }

  /** A host that was not marked has the mark, a blank and its notes afterwards, up to white space at the
      end, which is taken off; one that was marked keeps its notes. */
  lemma FlaggedNotes(n: Option<string>) returns (j: nat)
    ensures Contains(Notes(n), MARKER) ==> Flagged(n) == n
    ensures var text := "[under-investigation] " + Notes(n);
            !Contains(Notes(n), MARKER) ==>
              0 < j <= |text| && Notes(Flagged(n)) == text[..j] && IsBlank(text, j, |text|) && !IsSpace(text[j - 1])
  {
    var text := "[under-investigation] " + Notes(n);
    assert MARKER + " " == "[under-investigation] ";
    var i;
    i, j := StripTrims(text);
    assert text[0] == '[' && !IsSpace(text[0]);
  }
}
