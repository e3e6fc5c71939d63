/** Another file in the place of the one that is tailed: a rotation to a new inode, or a truncation. */
module TailRotation {
  import opened Options
  import opened Utf8
  import opened Tail
  import opened TailRuns

  /** What a poll makes of a checkpoint: the inode is adopted, and the offset is kept unless another
      inode was stored or the file is shorter. */
  lemma OffsetKeptIff(cp: Checkpoint, inode: nat, size: nat)
    ensures Observe(cp, inode, size).inode == Some(inode)
    ensures Observe(cp, inode, size).offset ==
            if (cp.inode.None? || cp.inode == Some(inode)) && cp.offset <= size then cp.offset else 0
  {
  }

  // ---------------------------------------------------------------------------
  // Runs from any state, and runs that look alike.
  // ---------------------------------------------------------------------------

  function RunFrom(f: seq<Byte>, inode: nat, st: State, steps: seq<Step>): State {
    if steps == [] then st else Apply(f, inode, RunFrom(f, inode, st, steps[..|steps| - 1]), steps[|steps| - 1])
  }

  /** Whatever part of the file is there, a poll with this checkpoint starts at the beginning: the
      offset is zero, another inode is stored, or the file never gets as long. */
  predicate Restarts(f: seq<Byte>, inode: nat, cp: Checkpoint) {
    cp.offset == 0 || (cp.inode.Some? && cp.inode.value != inode) || cp.offset > |f|
  }

  predicate SamePlace(f: seq<Byte>, inode: nat, a: Checkpoint, b: Checkpoint) {
    a == b || (Restarts(f, inode, a) && Restarts(f, inode, b))
  }

  /** Nothing that the tail does from here on tells the two states apart; without a crash the
      checkpoints on disk do not matter. */
  predicate Alike(f: seq<Byte>, inode: nat, a: State, b: State, mayCrash: bool) {
    && a.visible == b.visible <= |f| && a.phase == b.phase && a.emitted == b.emitted
    && (if mayCrash && a.phase.Idle? then SamePlace(f, inode, a.mem, b.mem) else a.mem == b.mem)
    && (mayCrash ==> SamePlace(f, inode, a.disk, b.disk))
  }

  lemma AlikeStep(f: seq<Byte>, inode: nat, a: State, b: State, mayCrash: bool, step: Step)
    requires Alike(f, inode, a, b, mayCrash) && (mayCrash || !step.Crash?)
    ensures Alike(f, inode, Apply(f, inode, a, step), Apply(f, inode, b, step), mayCrash)
  {
  }

  lemma {:induction false} AlikeRun(f: seq<Byte>, inode: nat, a: State, b: State, mayCrash: bool, steps: seq<Step>)
    requires Alike(f, inode, a, b, mayCrash)
    requires mayCrash || forall i :: 0 <= i < |steps| ==> !steps[i].Crash?
    ensures Alike(f, inode, RunFrom(f, inode, a, steps), RunFrom(f, inode, b, steps), mayCrash)
  {
    if steps != [] {
      var front, last := steps[..|steps| - 1], steps[|steps| - 1];
      AlikeRun(f, inode, a, b, mayCrash, front);
      AlikeStep(f, inode, RunFrom(f, inode, a, front), RunFrom(f, inode, b, front), mayCrash, last);
    }
  }

  lemma {:induction false} RunThen(f: seq<Byte>, inode: nat, before: seq<Step>, steps: seq<Step>)
    ensures Run(f, inode, before + steps) == RunFrom(f, inode, Run(f, inode, before), steps)
  {
    if steps == [] {
      assert before + steps == before;
    } else {
      var front := steps[..|steps| - 1];
      RunThen(f, inode, before, front);
      assert before + steps == before + front + [steps[|steps| - 1]];
      assert (before + steps)[..|before + steps| - 1] == before + front;
    }
  }

  lemma {:induction false} FromThen(f: seq<Byte>, inode: nat, st: State, before: seq<Step>, steps: seq<Step>)
    ensures RunFrom(f, inode, st, before + steps) == RunFrom(f, inode, RunFrom(f, inode, st, before), steps)
  {
    if steps == [] {
      assert before + steps == before;
    } else {
      var front := steps[..|steps| - 1];
      FromThen(f, inode, st, before, front);
      assert (before + steps)[..|before + steps| - 1] == before + front;
    }
  }

  // ---------------------------------------------------------------------------
  // A file that has just come into place.
  // ---------------------------------------------------------------------------

  /** Between batches, with nothing of this file emitted. */
  predicate JustReplaced(f: seq<Byte>, st: State) {
    st.phase.Idle? && st.visible <= |f| && st.emitted == []
  }

  /** A run on the file by a tail that never saw another. */
  function FreshRun(f: seq<Byte>, inode: nat, visible: nat, steps: seq<Step>): State {
    Run(f, inode, [Grow(visible)] + steps)
  }

  lemma FreshStart(f: seq<Byte>, inode: nat, visible: nat, steps: seq<Step>)
    requires visible <= |f|
    ensures FreshRun(f, inode, visible, steps) == RunFrom(f, inode, START.(visible := visible), steps)
  {
    RunThen(f, inode, [Grow(visible)], steps);
    assert [Grow(visible)][..0] == [];
    assert Run(f, inode, [Grow(visible)]) == Apply(f, inode, START, Grow(visible));
  }

  /** If both checkpoints restart, the tail goes on like one that starts afresh on the new file. */
  lemma ReplacedIsFresh(f: seq<Byte>, inode: nat, st: State, steps: seq<Step>)
    requires JustReplaced(f, st) && Restarts(f, inode, st.mem) && Restarts(f, inode, st.disk)
    ensures Alike(f, inode, RunFrom(f, inode, st, steps), FreshRun(f, inode, st.visible, steps), true)
  {
    FreshStart(f, inode, st.visible, steps);
    AlikeRun(f, inode, st, START.(visible := st.visible), true, steps);
  }

  /** All of the new file is there when it is polled and read, and its first line handed over. */
  const FIRST_READ: seq<Step> := [Poll, Read, Next]

  lemma FirstEmitted(f: seq<Byte>, inode: nat, st: State)
    requires JustReplaced(f, st) && st.visible == |f| && f != []
    ensures var (p, out) := (Observe(st.mem, inode, |f|).offset, RunFrom(f, inode, st, FIRST_READ).emitted);
            out == if p <= |f| && EndOf(f, p, |f|) != 0 then [p] else []
  {
    var p := Observe(st.mem, inode, |f|).offset;
    assert FIRST_READ[..2] == [Poll, Read] && [Poll, Read][..1] == [Poll] && [Poll][..0] == [];
    assert RunFrom(f, inode, st, [Poll]) == Apply(f, inode, st, Poll);
    assert RunFrom(f, inode, st, [Poll, Read]) == Apply(f, inode, Apply(f, inode, st, Poll), Read);
  }

  /** Grown in full, perhaps after a crash. */
  function GrownBy(f: seq<Byte>, crash: bool): seq<Step> {
    (if crash then [Crash] else []) + [Grow(|f|)]
  }

  lemma Grown(f: seq<Byte>, inode: nat, st: State, crash: bool)
    requires JustReplaced(f, st)
    ensures var after := RunFrom(f, inode, st, GrownBy(f, crash));
            JustReplaced(f, after) && after.visible == |f| && after.mem == if crash then st.disk else st.mem
  {
    if crash {
      assert [Crash] + [Grow(|f|)] == [Crash, Grow(|f|)] && [Crash, Grow(|f|)][..1] == [Crash] && [Crash][..0] == [];
      assert RunFrom(f, inode, st, [Crash]) == Apply(f, inode, st, Crash);
    } else {
      assert [] + [Grow(|f|)] == [Grow(|f|)] && [Grow(|f|)][..0] == [];
    }
  }

  /** A checkpoint that does not restart shows in the first line that is read. */
  lemma StaleShows(f: seq<Byte>, inode: nat, st: State, crash: bool)
    requires JustReplaced(f, st) && EndOf(f, 0, |f|) != 0
    requires !Restarts(f, inode, if crash then st.disk else st.mem)
    ensures var steps := GrownBy(f, crash) + FIRST_READ;
            RunFrom(f, inode, st, steps).emitted != FreshRun(f, inode, st.visible, steps).emitted
  {
    var (grown, start) := (GrownBy(f, crash), START.(visible := st.visible));
    FreshStart(f, inode, st.visible, grown + FIRST_READ);
    FromThen(f, inode, st, grown, FIRST_READ);
    FromThen(f, inode, start, grown, FIRST_READ);
    Grown(f, inode, st, crash);
    Grown(f, inode, start, crash);
    FirstEmitted(f, inode, RunFrom(f, inode, st, grown));
    FirstEmitted(f, inode, RunFrom(f, inode, start, grown));
  }

  /** A file put in the place of another, whose first line gets complete, is read like one that was
      there from the beginning, however it grows and whenever the agent polls, saves and crashes, if
      and only if both checkpoints restart on it: the one in memory and the one on disk. */
  lemma ReadFromStartIff(f: seq<Byte>, inode: nat, st: State)
    requires JustReplaced(f, st) && EndOf(f, 0, |f|) != 0
    ensures (forall steps :: RunFrom(f, inode, st, steps).emitted == FreshRun(f, inode, st.visible, steps).emitted)
            <==> Restarts(f, inode, st.mem) && Restarts(f, inode, st.disk)
  {
    if Restarts(f, inode, st.mem) && Restarts(f, inode, st.disk) {
      forall steps ensures RunFrom(f, inode, st, steps).emitted == FreshRun(f, inode, st.visible, steps).emitted {
        ReplacedIsFresh(f, inode, st, steps);
      }
    } else {
      StaleShows(f, inode, st, Restarts(f, inode, st.mem));
    }
  }

  // ---------------------------------------------------------------------------
  // Truncation.
  // ---------------------------------------------------------------------------

  /** A poll that finds the file shorter than the offset reads it from the beginning, each line once
      and in order, even if the file then grows past the old offset, as long as the agent runs on. */
  lemma TruncationSeen(f: seq<Byte>, inode: nat, st: State, steps: seq<Step>)
    requires JustReplaced(f, st) && st.visible < st.mem.offset
    requires forall i :: 0 <= i < |steps| ==> !steps[i].Crash?
    ensures var after := RunFrom(f, inode, st, [Poll] + steps);
            && InSequence(f, after.emitted)
            && (after.phase.Idle? || after.phase.Reading? ==> after.mem.offset == NextAfter(f, after.emitted))
  {
    var start := START.(visible := st.visible);
    FreshStart(f, inode, st.visible, [Poll] + steps);
    FromThen(f, inode, st, [Poll], steps);
    FromThen(f, inode, start, [Poll], steps);
    assert [Poll][..0] == [];
    var (a, b) := (RunFrom(f, inode, st, [Poll]), RunFrom(f, inode, start, [Poll]));
    assert a.mem == b.mem == Checkpoint(Some(inode), 0);
    AlikeRun(f, inode, a, b, false, steps);
    NoCrashExactlyOnce(f, inode, [Grow(st.visible)] + ([Poll] + steps));
  }

  // ---------------------------------------------------------------------------
  // Rotations over whole runs.
  // ---------------------------------------------------------------------------

  /** `Replace` puts another file in place between batches; a batch that was read is in memory, so that
      a file replaced meanwhile is noticed after it. */
  datatype Move = On(step: Step) | Replace(f: seq<Byte>, inode: nat, visible: nat)

  /** The file in place; what is recorded as emitted are its own lines. */
  datatype World = World(f: seq<Byte>, inode: nat, st: State)

  function Moved(w: World, move: Move): World {
    match move
    case On(step) => w.(st := Apply(w.f, w.inode, w.st, step))
    case Replace(f, inode, visible) =>
      if w.st.phase.Idle? && visible <= |f| then
        World(f, inode, w.st.(visible := visible, emitted := [], crashes := 0))
      else w
  }

  function RunMoves(f: seq<Byte>, inode: nat, moves: seq<Move>): World {
    if moves == [] then World(f, inode, START) else Moved(RunMoves(f, inode, moves[..|moves| - 1]), moves[|moves| - 1])
  }

  function Ons(steps: seq<Step>): (moves: seq<Move>)
    ensures |moves| == |steps|
  {
    seq(|steps|, i requires 0 <= i < |steps| => On(steps[i]))
  }

  /** No file so far had this inode. */
  predicate IsNew(first: nat, moves: seq<Move>, inode: nat) {
    inode != first && forall i :: 0 <= i < |moves| && moves[i].Replace? ==> moves[i].inode != inode
  }

  predicate Unknown(cp: Checkpoint, inode: nat) {
    cp.inode != Some(inode) && (cp.inode.None? ==> cp.offset == 0)
  }

  lemma {:induction false} NewIsUnknown(f: seq<Byte>, first: nat, moves: seq<Move>, inode: nat)
    requires IsNew(first, moves, inode)
    ensures var w := RunMoves(f, first, moves);
            && w.inode != inode && Unknown(w.st.mem, inode) && Unknown(w.st.disk, inode)
            && (!w.st.phase.Idle? ==> w.st.mem.inode.Some?)
  {
    if moves != [] { NewIsUnknown(f, first, moves[..|moves| - 1], inode); }
  }

  lemma {:induction false} MovesOn(f: seq<Byte>, first: nat, before: seq<Move>, steps: seq<Step>)
    ensures var (w, w') := (RunMoves(f, first, before), RunMoves(f, first, before + Ons(steps)));
            w' == World(w.f, w.inode, RunFrom(w.f, w.inode, w.st, steps))
  {
    if steps == [] {
      assert before + Ons(steps) == before;
    } else {
      var front, last := steps[..|steps| - 1], steps[|steps| - 1];
      MovesOn(f, first, before, front);
      var all := before + Ons(steps);
      assert all[..|all| - 1] == before + Ons(front) && all[|all| - 1] == On(last);
    }
  }

  /** After any run, a rotation to a file with an inode of its own: whatever the old offset was, the tail
      runs on like one that starts afresh on the new file. */
  lemma RotationStartsAfresh(
    f0: seq<Byte>, first: nat, before: seq<Move>, f: seq<Byte>, inode: nat, visible: nat, steps: seq<Step>)
    requires RunMoves(f0, first, before).st.phase.Idle? && visible <= |f| && IsNew(first, before, inode)
    ensures var w := RunMoves(f0, first, before + [Replace(f, inode, visible)] + Ons(steps));
            w.f == f && w.inode == inode && Alike(f, inode, w.st, FreshRun(f, inode, visible, steps), true)
  {
    NewIsUnknown(f0, first, before, inode);
    var placed := before + [Replace(f, inode, visible)];
    assert placed[..|placed| - 1] == before;
    MovesOn(f0, first, placed, steps);
    ReplacedIsFresh(f, inode, RunMoves(f0, first, placed).st, steps);
  }

  /** So the lines of the new file come in sequence from the first, each once, without a crash; and if
      its lines keep their length, none is skipped whatever crashes, and all are emitted by a tail that
      has seen the file and has nothing more to read. */
  lemma RotationsLoseNothing(
    f0: seq<Byte>, first: nat, before: seq<Move>, f: seq<Byte>, inode: nat, visible: nat, steps: seq<Step>)
    requires RunMoves(f0, first, before).st.phase.Idle? && visible <= |f| && IsNew(first, before, inode)
    ensures var w := RunMoves(f0, first, before + [Replace(f, inode, visible)] + Ons(steps));
            && ((forall i :: 0 <= i < |steps| ==> !steps[i].Crash?) ==> InSequence(f, w.st.emitted))
            && (AllExact(f) ==>
                  NoneSkipped(f, w.st.emitted) && (w.st.mem.inode == Some(inode) ==> NothingLost(f, w.st)))
  {
    RotationStartsAfresh(f0, first, before, f, inode, visible, steps);
    var all := [Grow(visible)] + steps;
    if forall i :: 0 <= i < |steps| ==> !steps[i].Crash? { NoCrashExactlyOnce(f, inode, all); }
    if AllExact(f) {
      CrashesLoseNothing(f, inode, all);
      RunSafe(f, inode, all);
    }
  }
}
