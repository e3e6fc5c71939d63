/** The blocked-observable detector: a Redis entry that lives 30 seconds in front of the table of
    blocked values, and the block transactions that delete it before they commit. */
module BlockCache {
  import opened Options
  import opened ResponseModel
  import opened ResponseRuns

  const TTL := 30

  datatype Entry = Entry(values: set<string>, expires: int)

  /** The values of the active rows. */
  function ActiveValues(blocked: map<Id, Observable>): set<string> {
    set o | o in blocked && blocked[o].active :: blocked[o].value
  }

  predicate IsLive(entry: Option<Entry>, now: int) {
    entry.Some? && now < entry.value.expires
  }

  /** What a lookup answers: the live entry if Redis gives it, else the table. */
  function Answer(blocked: map<Id, Observable>, entry: Option<Entry>, now: int, got: bool): set<string> {
    if got && IsLive(entry, now) then entry.value.values else ActiveValues(blocked)
  }

  /** The entry after a lookup: one that reads the table stores what it read, unless that is
      empty. */
  function EntryAfter(blocked: map<Id, Observable>, entry: Option<Entry>, now: int, got: bool, stored: bool): Option<Entry> {
    if got && IsLive(entry, now) then entry
    else if ActiveValues(blocked) != {} && stored then Some(Entry(ActiveValues(blocked), now + TTL))
    else entry
  }

  // ---------------------------------------------------------------------------
  // The detector.
  // ---------------------------------------------------------------------------

  const CHECKABLE := ["source_ip", "dst_ip", "src_ip", "user", "host", "image", "cmdline"]

  /** The event holds a blocked value in this field. */
  predicate Matches(normalized: map<string, string>, field: string, active: set<string>) {
    field in normalized && normalized[field] != "" && normalized[field] in active
  }

  class Detector {
    var entry: Option<Entry>

    constructor ()
      ensures entry == None
    {
      entry := None;
    }

    method ReadTable(blocked: map<Id, Observable>) returns (values: set<string>)
      ensures values == ActiveValues(blocked)
    {
      values := {};
      var todo := blocked.Keys;
      while todo != {}
        invariant todo <= blocked.Keys
        invariant values == set o | o in blocked && o !in todo && blocked[o].active :: blocked[o].value
      {
        var o: Id :| o in todo;
        if blocked[o].active {
          values := values + {blocked[o].value};
        }
        todo := todo - {o};
      }
    }

    /** `got` and `stored` tell whether the two Redis operations worked. */
    method GetActiveValues(blocked: map<Id, Observable>, now: int, got: bool, stored: bool)
      returns (values: set<string>)
      modifies this
      ensures values == Answer(blocked, old(entry), now, got)
      ensures entry == EntryAfter(blocked, old(entry), now, got, stored)
    {
      if got && entry.Some? && now < entry.value.expires {
        return entry.value.values;
      }
      values := ReadTable(blocked);
      if values != {} && stored {
        entry := Some(Entry(values, now + TTL));
      }
    }

    /** The first checkable field that holds a blocked value, if any does. */
    method Check(normalized: map<string, string>, blocked: map<Id, Observable>, now: int, got: bool, stored: bool)
      returns (hit: Option<string>)
      modifies this
      ensures entry == EntryAfter(blocked, old(entry), now, got, stored)
      ensures var active := Answer(blocked, old(entry), now, got);
              var fields := ["source_ip", "dst_ip", "src_ip", "user", "host", "image", "cmdline"];
              match hit
              case None => forall i :: 0 <= i < 7 ==> !Matches(normalized, fields[i], active)
              case Some(field) =>
                exists i :: 0 <= i < 7 && field == fields[i] && Matches(normalized, field, active)
                            && forall j :: 0 <= j < i ==> !Matches(normalized, fields[j], active)
    {
      var active := GetActiveValues(blocked, now, got, stored);
      if active == {} { return None; }
      var fields := CHECKABLE;
      for i := 0 to |fields|
        invariant forall j :: 0 <= j < i ==> !Matches(normalized, fields[j], active)
      {
        if Matches(normalized, fields[i], active) { return Some(fields[i]); }
      }
      return None;
    }
  }

  // ---------------------------------------------------------------------------
  // Runs.
  // ---------------------------------------------------------------------------

  /** `pending` is the response transaction in flight: its handler has run, it has not committed. */
  datatype State = State(world: World, pending: Option<Step>, entry: Option<Entry>, now: int)

  datatype Move =
    | Begin(step: Step, deleted: bool)
    | Commit
    | Rollback
    | Lookup(got: bool, stored: bool)
    | Evict
    | Wait(seconds: nat)

  /** The step runs a block handler up to the point where it deletes the entry. */
  predicate Announces(w: World, step: Step) {
    match step
    case DoExecute(id, env) =>
      && Execute(w, id, env).Ok? && w.actions[id].kind.Block?
      && Handle(w, id, w.actions[id].kind, env).value.outcome == Good
    case DoRevert(id) =>
      && Revert(w, id).Ok? && w.actions[id].kind.Block?
      && Undo(w, w.actions[id].kind, LastGood(w.logs, id).value.reversal.value).outcome == Good
    case _ => false
  }

  /** One response transaction at a time; lookups at any moment. */
  function Next(st: State, move: Move): State {
    match move
    case Begin(step, deleted) =>
      if st.pending.Some? then st
      else if Announces(st.world, step) && deleted then st.(pending := Some(step), entry := None)
      else st.(pending := Some(step))
    case Commit =>
      if st.pending.None? then st else st.(world := Apply(st.world, st.pending.value), pending := None)
    case Rollback => st.(pending := None)
    case Lookup(got, stored) =>
      st.(entry := EntryAfter(st.world.blocked, st.entry, st.now, got, stored))
    case Evict => st.(entry := None)
    case Wait(seconds) => st.(now := st.now + seconds)
  }

  /** The state after the first `n` moves. */
  function At(st: State, moves: seq<Move>, n: nat): State
    requires n <= |moves|
  {
    if n == 0 then st else Next(At(st, moves, n - 1), moves[n - 1])
  }

  /** What a lookup in this state answers. */
  function AnswerIn(st: State, got: bool): set<string> {
    Answer(st.world.blocked, st.entry, st.now, got)
  }

  function Active(st: State): set<string> {
    ActiveValues(st.world.blocked)
  }

  predicate Starts(st: State) {
    IsFresh(st.world) && st.pending.None? && st.entry.None?
  }

  // ---------------------------------------------------------------------------
  // Never older than 30 seconds.
  // ---------------------------------------------------------------------------

  lemma {:induction false} TimePasses(st: State, moves: seq<Move>, m: nat, n: nat)
    requires m <= n <= |moves|
    ensures At(st, moves, m).now <= At(st, moves, n).now
  {
    if m < n { TimePasses(st, moves, m, n - 1); }
  }

  /** A moment of the run at which these were the active values, 30 seconds before `expires`. */
  ghost predicate WasFilled(st: State, moves: seq<Move>, n: nat, e: Entry, k: nat)
    requires n <= |moves|
  {
    k <= n && At(st, moves, k).now + TTL == e.expires && Active(At(st, moves, k)) == e.values
  }

  lemma {:induction false} EntryHasMoment(st: State, moves: seq<Move>, n: nat) returns (k: nat)
    requires st.entry.None? && n <= |moves|
    requires At(st, moves, n).entry.Some?
    ensures WasFilled(st, moves, n, At(st, moves, n).entry.value, k)
  {
    var was, is_ := At(st, moves, n - 1), At(st, moves, n);
    if is_.entry == was.entry {
      k := EntryHasMoment(st, moves, n - 1);
    } else {
      k := n - 1;
    }
  }

  /** The values with a block action that stands executed, as a set. */
  ghost predicate AreExecutedBlocks(values: set<string>, w: World) {
    forall v :: v in values <==> HasExecutedBlock(w, v)
  }

  lemma {:induction false} WorldFits(st: State, moves: seq<Move>, n: nat)
    requires Starts(st) && n <= |moves|
    ensures BlocksFit(At(st, moves, n).world)
  {
    if n > 0 {
      WorldFits(st, moves, n - 1);
      var was := At(st, moves, n - 1);
      if was.pending.Some? { StepKeepsBlocks(was.world, was.pending.value); }
    }
  }

  lemma ActiveAreExecuted(w: World)
    requires BlocksFit(w)
    ensures AreExecutedBlocks(ActiveValues(w.blocked), w)
  {
    forall v ensures v in ActiveValues(w.blocked) <==> HasExecutedBlock(w, v) {
      FitMeansAgree(w, v);
    }
  }

  /** Whatever the transactions, the failures of Redis and the schedule: a lookup answers exactly
      the values with an executed block action at some moment less than 30 seconds ago. */
  lemma AnswerIsRecent(st: State, moves: seq<Move>, n: nat, got: bool)
    requires Starts(st) && n <= |moves|
    ensures exists k: nat ::
              && k <= n && At(st, moves, n).now - 30 < At(st, moves, k).now <= At(st, moves, n).now
              && AreExecutedBlocks(AnswerIn(At(st, moves, n), got), At(st, moves, k).world)
  {
    var now := At(st, moves, n);
    var k := n;
    if got && IsLive(now.entry, now.now) {
      k := EntryHasMoment(st, moves, n);
      TimePasses(st, moves, k, n);
    }
    WorldFits(st, moves, k);
    ActiveAreExecuted(At(st, moves, k).world);
  }

  // ---------------------------------------------------------------------------
  // When it is current.
  // ---------------------------------------------------------------------------

  /** Every lookup in this state answers the active set. */
  predicate IsCurrent(st: State) {
    AnswerIn(st, true) == Active(st) && AnswerIn(st, false) == Active(st)
  }

  /** The move commits a change of the active set under a live entry. */
  predicate Overtakes(st: State, move: Move) {
    move.Commit? && IsLive(st.entry, st.now) && Active(Next(st, move)) != Active(st)
  }

  lemma MoveStaysCurrent(st: State, move: Move)
    requires IsCurrent(st)
    ensures IsCurrent(Next(st, move)) <==> !Overtakes(st, move)
  {
  }

  /** Current now, and at every moment before. */
  predicate AlwaysCurrent(st: State, moves: seq<Move>, n: nat)
    requires n <= |moves|
  {
    IsCurrent(At(st, moves, n)) && (n > 0 ==> AlwaysCurrent(st, moves, n - 1))
  }

  /** None of the first `n` moves overtakes a live entry. */
  predicate NoneOvertakes(st: State, moves: seq<Move>, n: nat)
    requires n <= |moves|
  {
    n > 0 ==> !Overtakes(At(st, moves, n - 1), moves[n - 1]) && NoneOvertakes(st, moves, n - 1)
  }

  /** The lookups are current at every moment of a run exactly when no transaction commits a change
      of the active set while an entry is live. */
  lemma {:induction false} CurrentIff(st: State, moves: seq<Move>, n: nat)
    requires IsCurrent(st) && n <= |moves|
    ensures AlwaysCurrent(st, moves, n) <==> NoneOvertakes(st, moves, n)
  {
    if n > 0 {
      CurrentIff(st, moves, n - 1);
      if IsCurrent(At(st, moves, n - 1)) {
        MoveStaysCurrent(At(st, moves, n - 1), moves[n - 1]);
      }
    }
  }

  /** Every change of the active set is announced: no other step touches it. */
  lemma ChangesAreAnnounced(w: World, step: Step)
    requires !Announces(w, step)
    ensures ActiveValues(Apply(w, step).blocked) == ActiveValues(w.blocked)
  {
  }

  predicate Announcing(st: State) {
    st.pending.Some? && Announces(st.world, st.pending.value)
  }

  /** The deletion works, and no lookup fills the entry between it and the commit. */
  predicate IsPrompt(st: State, move: Move) {
    && (move.Begin? && st.pending.None? && Announces(st.world, move.step) ==> move.deleted)
    && (move.Lookup? && Announcing(st) ==> !move.stored)
  }

  predicate IsPromptRun(st: State, moves: seq<Move>, n: nat)
    requires n <= |moves|
  {
    n > 0 ==> IsPrompt(At(st, moves, n - 1), moves[n - 1]) && IsPromptRun(st, moves, n - 1)
  }

  /** An announcing transaction runs without an entry. */
  predicate IsClear(st: State) {
    Announcing(st) ==> st.entry.None?
  }

  lemma PromptKeepsClear(st: State, move: Move)
    requires IsPrompt(st, move) && IsClear(st)
    ensures IsClear(Next(st, move)) && !Overtakes(st, move)
  {
    if move.Commit? && st.pending.Some? && !Announcing(st) {
      ChangesAreAnnounced(st.world, st.pending.value);
    }
  }

  lemma {:induction false} PromptRunIsClear(st: State, moves: seq<Move>, n: nat)
    requires IsClear(st) && n <= |moves| && IsPromptRun(st, moves, n)
    ensures IsClear(At(st, moves, n)) && NoneOvertakes(st, moves, n)
  {
    if n > 0 {
      PromptRunIsClear(st, moves, n - 1);
      PromptKeepsClear(At(st, moves, n - 1), moves[n - 1]);
    }
  }

  /** If every deletion works and none is followed by a fill before its commit, all lookups of the
      run are current. */
  lemma PromptDeletionSuffices(st: State, moves: seq<Move>, n: nat)
    requires Starts(st) && n <= |moves| && IsPromptRun(st, moves, n)
    ensures AlwaysCurrent(st, moves, n)
  {
    PromptRunIsClear(st, moves, n);
    CurrentIff(st, moves, n);
  }

  // ---------------------------------------------------------------------------
  // With deletions that work: exactly the schedules that go stale.
  // ---------------------------------------------------------------------------

  predicate Opens(st: State, move: Move) {
    move.Begin? && st.pending.None?
  }

  predicate DeletionsWork(st: State, moves: seq<Move>, n: nat)
    requires n <= |moves|
  {
    forall k :: 0 <= k < n && Opens(At(st, moves, k), moves[k]) && Announces(At(st, moves, k).world, moves[k].step) ==>
                  moves[k].deleted
  }

  /** A lookup that reads the table and stores what it read. */
  predicate Stores(st: State, move: Move) {
    move.Lookup? && !(move.got && IsLive(st.entry, st.now)) && move.stored && Active(st) != {}
  }

  /** No transaction ends strictly between moves `i` and `k`. */
  predicate StaysOpen(moves: seq<Move>, i: nat, k: nat)
    requires k <= |moves|
  {
    forall m :: i < m < k ==> !moves[m].Commit? && !moves[m].Rollback?
  }

  predicate NoEviction(moves: seq<Move>, j: nat, k: nat)
    requires k <= |moves|
  {
    forall m :: j < m < k ==> !moves[m].Evict?
  }

  /** Move `i` begins a transaction and deletes the entry, move `j` is a lookup that stores what it
      read, and move `k`, less than 30 seconds later and with no eviction between, commits the
      transaction, which changes the active set. */
  predicate FilledBetween(st: State, moves: seq<Move>, i: nat, j: nat, k: nat)
    requires k < |moves|
  {
    && i < j < k
    && Opens(At(st, moves, i), moves[i]) && StaysOpen(moves, i, k)
    && Stores(At(st, moves, j), moves[j]) && NoEviction(moves, j, k)
    && At(st, moves, k).now < At(st, moves, j).now + 30
    && moves[k].Commit? && ActiveValues(Apply(At(st, moves, i).world, moves[i].step).blocked) != Active(At(st, moves, i))
  }

  lemma {:induction false} OpenSince(st: State, moves: seq<Move>, i: nat, k: nat)
    requires i < k <= |moves| && Opens(At(st, moves, i), moves[i]) && StaysOpen(moves, i, k)
    ensures At(st, moves, k).pending == Some(moves[i].step) && At(st, moves, k).world == At(st, moves, i).world
  {
    if i < k - 1 { OpenSince(st, moves, i, k - 1); }
  }

  lemma {:induction false} OpenedBy(st: State, moves: seq<Move>, k: nat) returns (i: nat)
    requires st.pending.None? && k <= |moves| && At(st, moves, k).pending.Some?
    ensures i < k && Opens(At(st, moves, i), moves[i]) && StaysOpen(moves, i, k)
  {
    if At(st, moves, k - 1).pending.None? {
      i := k - 1;
    } else {
      i := OpenedBy(st, moves, k - 1);
    }
  }

  /** While a transaction is open, an entry comes from the last lookup that stored one. */
  lemma {:induction false} StoredBy(st: State, moves: seq<Move>, i: nat, k: nat) returns (j: nat)
    requires i < k <= |moves| && Opens(At(st, moves, i), moves[i]) && StaysOpen(moves, i, k)
    requires At(st, moves, i + 1).entry.None? && At(st, moves, k).entry.Some?
    ensures i < j < k && Stores(At(st, moves, j), moves[j]) && NoEviction(moves, j, k)
    ensures At(st, moves, k).entry.value.expires == At(st, moves, j).now + TTL
  {
    OpenSince(st, moves, i, k - 1);
    if Stores(At(st, moves, k - 1), moves[k - 1]) {
      j := k - 1;
    } else {
      assert At(st, moves, k).entry == At(st, moves, k - 1).entry;
      j := StoredBy(st, moves, i, k - 1);
    }
  }

  /** And a stored entry stays, or makes way for one that lives longer. */
  lemma {:induction false} StaysStored(st: State, moves: seq<Move>, i: nat, j: nat, k: nat)
    requires i < j < k <= |moves| && Opens(At(st, moves, i), moves[i]) && StaysOpen(moves, i, k)
    requires Stores(At(st, moves, j), moves[j]) && NoEviction(moves, j, k)
    ensures At(st, moves, k).entry.Some? && At(st, moves, k).entry.value.expires >= At(st, moves, j).now + TTL
  {
    if j < k - 1 {
      OpenSince(st, moves, i, k - 1);
      StaysStored(st, moves, i, j, k - 1);
      TimePasses(st, moves, j, k - 1);
    }
  }

  lemma FilledIsOvertaken(st: State, moves: seq<Move>, i: nat, j: nat, k: nat)
    requires k < |moves| && FilledBetween(st, moves, i, j, k)
    ensures Overtakes(At(st, moves, k), moves[k])
  {
    OpenSince(st, moves, i, k);
    StaysStored(st, moves, i, j, k);
  }

  lemma OvertakenIsFilled(st: State, moves: seq<Move>, k: nat) returns (i: nat, j: nat)
    requires st.pending.None? && k < |moves| && DeletionsWork(st, moves, k)
    requires Overtakes(At(st, moves, k), moves[k])
    ensures FilledBetween(st, moves, i, j, k)
  {
    i := OpenedBy(st, moves, k);
    OpenSince(st, moves, i, k);
    if !Announces(At(st, moves, i).world, moves[i].step) {
      ChangesAreAnnounced(At(st, moves, i).world, moves[i].step);
    }
    assert At(st, moves, i + 1) == Next(At(st, moves, i), moves[i]);
    j := StoredBy(st, moves, i, k);
  }

  /** With deletions that all work, the lookups are current at every moment of a run if and only if no
      lookup stores what it read between a deletion and its commit, less than 30 seconds before that
      commit and with no eviction between, where the commit changes the active set. */
  lemma StaleIff(st: State, moves: seq<Move>, n: nat)
    requires Starts(st) && n <= |moves| && DeletionsWork(st, moves, n)
    ensures AlwaysCurrent(st, moves, n) <==>
            forall i: nat, j: nat, k: nat :: k < n ==> !FilledBetween(st, moves, i, j, k)
  {
    CurrentIff(st, moves, n);
    if !NoneOvertakes(st, moves, n) {
      var k := SomeOvertakes(st, moves, n);
      var i, j := OvertakenIsFilled(st, moves, k);
    }
    forall i: nat, j: nat, k: nat | k < n && FilledBetween(st, moves, i, j, k) ensures !NoneOvertakes(st, moves, n) {
      FilledIsOvertaken(st, moves, i, j, k);
      if NoneOvertakes(st, moves, n) { EachOvertakesNone(st, moves, n, k); }
    }
  }

  lemma {:induction false} EachOvertakesNone(st: State, moves: seq<Move>, n: nat, k: nat)
    requires k < n <= |moves| && NoneOvertakes(st, moves, n)
    ensures !Overtakes(At(st, moves, k), moves[k])
  {
    if k < n - 1 { EachOvertakesNone(st, moves, n - 1, k); }
  }

  lemma {:induction false} SomeOvertakes(st: State, moves: seq<Move>, n: nat) returns (k: nat)
    requires n <= |moves| && !NoneOvertakes(st, moves, n)
    ensures k < n && Overtakes(At(st, moves, k), moves[k])
  {
    if Overtakes(At(st, moves, n - 1), moves[n - 1]) { k := n - 1; } else { k := SomeOvertakes(st, moves, n - 1); }
  }

  /** Block `v`, revert the block, and look up between the deletion and the commit. */
  function StaleRun(v: string, env: Env): seq<Move> {
    [Begin(DoPropose(0, Block("ip", v)), true), Commit, Begin(DoExecute(0, env), true), Commit,
     Begin(DoRevert(0), true), Lookup(true, true), Commit]
  }

  lemma BlockedOnce(st: State, v: string, env: Env)
    requires Starts(st) && v != ""
    ensures var st' := At(st, StaleRun(v, env), 4);
            && st'.pending.None? && st'.entry.None? && st'.now == st.now
            && st'.world.actions == map[0 := Action(Block("ip", v), Executed)]
            && st'.world.logs == [BlockRow(0, env.newId)]
            && st'.world.blocked == map[env.newId := Observable(v, 0, true)]
  {
    var moves := StaleRun(v, env);
    var w1 := Apply(st.world, DoPropose(0, Block("ip", v)));
    assert At(st, moves, 2) == Next(Next(At(st, moves, 0), moves[0]), moves[1]);
    assert At(st, moves, 2).world == w1;
    assert w1.actions == map[0 := Action(Block("ip", v), Proposed)];
    assert At(st, moves, 4) == Next(Next(At(st, moves, 2), moves[2]), moves[3]);
  }

  /** Deletions that work are not enough: a lookup between the deletion and the commit stores the
      old values, and answers them after the block was lifted. */
  lemma StaleDespiteDeletion(st: State, v: string, env: Env)
    requires Starts(st) && v != ""
    ensures var st' := At(st, StaleRun(v, env), 7);
            AnswerIn(st', true) == {v} && Active(st') == {} && !HasExecutedBlock(st'.world, v)
  {
    var moves := StaleRun(v, env);
    BlockedOnce(st, v, env);
    var st4 := At(st, moves, 4);
    assert st4.world.blocked[env.newId].active;
    assert Active(st4) == {v};
    LastGoodAppend([], BlockRow(0, env.newId), 0);
    assert st4.world.logs == [] + [BlockRow(0, env.newId)];
    assert Announces(st4.world, DoRevert(0));
    var st5 := Next(st4, moves[4]);
    assert st5.world == st4.world && st5.entry.None? && st5.now == st.now;
    assert At(st, moves, 6) == Next(st5, moves[5]);
    assert At(st, moves, 6).entry == Some(Entry({v}, st.now + TTL));
    assert At(st, moves, 7) == Next(At(st, moves, 6), moves[6]);
    WorldFits(st, moves, 7);
    FitMeansAgree(At(st, moves, 7).world, v);
  }
}
