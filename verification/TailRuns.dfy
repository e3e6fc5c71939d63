/** What a tail emits over whole runs. */
module TailRuns {
  import opened Options
  import opened Utf8
  import opened Tail

  // ---------------------------------------------------------------------------
  // Vocabulary.
  // ---------------------------------------------------------------------------

  /** Where the tail will read next, as far as the reader itself is concerned. */
  function Position(st: State): nat {
    match st.phase
    case Batch(pos, _) => pos
    case Handed(pos, _) => pos
    case _ => st.mem.offset
  }

  /** The line after the last one emitted. */
  function NextAfter(f: seq<Byte>, emitted: seq<nat>): nat {
    if emitted == [] then 0 else EndOf(f, emitted[|emitted| - 1], |f|)
  }

  /** Every complete line before `p` was emitted. */
  predicate EmittedBefore(f: seq<Byte>, emitted: seq<nat>, p: nat) {
    forall q :: 0 <= q < p && Complete(f, q, |f|) ==> q in emitted
  }

  predicate OnlyLines(f: seq<Byte>, emitted: seq<nat>) {
    forall i :: 0 <= i < |emitted| ==> Complete(f, emitted[i], |f|)
  }

  /** Each line is followed by the next line of the file. */
  predicate InSequence(f: seq<Byte>, emitted: seq<nat>) {
    && OnlyLines(f, emitted)
    && (emitted != [] ==> emitted[0] == 0)
    && forall i :: 0 < i < |emitted| ==> emitted[i] == EndOf(f, emitted[i - 1], |f|)
  }

  /** Each line is followed by the next line of the file or by an earlier one, never by a later. */
  predicate NoneSkipped(f: seq<Byte>, emitted: seq<nat>) {
    && OnlyLines(f, emitted)
    && (emitted != [] ==> emitted[0] == 0)
    && forall i :: 0 < i < |emitted| ==> emitted[i] <= EndOf(f, emitted[i - 1], |f|)
  }

  /** Each line is followed by the next line of the file or by itself once more. */
  predicate OnlyRepeats(f: seq<Byte>, emitted: seq<nat>) {
    && OnlyLines(f, emitted)
    && (emitted != [] ==> emitted[0] == 0)
    && forall i :: 0 < i < |emitted| ==>
         emitted[i] == emitted[i - 1] || emitted[i] == EndOf(f, emitted[i - 1], |f|)
  }

  function Repeats(emitted: seq<nat>): nat {
    if |emitted| < 2 then 0
    else
      var n := |emitted|;
      Repeats(emitted[..n - 1]) + if emitted[n - 1] == emitted[n - 2] then 1 else 0
  }

  /** Decoding the line and encoding it again gives a line of the same length. */
  predicate Exact(f: seq<Byte>, p: nat)
    requires Complete(f, p, |f|)
  {
    Reencoded(f[p..EndOf(f, p, |f|)]) == EndOf(f, p, |f|) - p
  }

  predicate AllExact(f: seq<Byte>) {
    forall p :: 0 <= p <= |f| && Complete(f, p, |f|) ==> Exact(f, p)
  }

  /** The batch in hand lies within what is written, and the reader is at the start of a line. */
  predicate AtLine(f: seq<Byte>, inode: nat, st: State) {
    && st.visible <= |f| && Position(st) <= st.visible
    && LineStart(f, Position(st))
    && (st.phase.Batch? || st.phase.Handed? ==> st.phase.limit <= st.visible)
    && (st.mem.inode.Some? ==> st.mem.inode.value == inode)
    && (st.disk.inode.Some? ==> st.disk.inode.value == inode)
  }

  // ---------------------------------------------------------------------------
  // Without crashes, on any bytes.
  // ---------------------------------------------------------------------------

  ghost predicate Steady(f: seq<Byte>, inode: nat, st: State) {
    AtLine(f, inode, st) && InSequence(f, st.emitted) && Position(st) == NextAfter(f, st.emitted)
  }

  lemma SteadyNext(f: seq<Byte>, inode: nat, st: State)
    requires Steady(f, inode, st) && st.phase.Batch? && EndOf(f, st.phase.pos, st.phase.limit) != 0
    ensures Steady(f, inode, TakeNext(f, st))
  {
    EndOfStable(f, st.phase.pos, st.phase.limit, |f|);
    InSequenceGrows(f, st.emitted, st.phase.pos);
  }

  lemma InSequenceGrows(f: seq<Byte>, emitted: seq<nat>, pos: nat)
    requires InSequence(f, emitted) && Complete(f, pos, |f|) && pos == NextAfter(f, emitted)
    ensures InSequence(f, emitted + [pos]) && NextAfter(f, emitted + [pos]) == EndOf(f, pos, |f|)
  {
  }

  lemma SteadyStep(f: seq<Byte>, inode: nat, st: State, step: Step)
    requires Steady(f, inode, st) && !step.Crash?
    ensures Steady(f, inode, Apply(f, inode, st, step))
  {
    if step.Next? && st.phase.Batch? && EndOf(f, st.phase.pos, st.phase.limit) != 0 { SteadyNext(f, inode, st); }
  }

  /** Without a crash each line is emitted once, in order, and between batches the offset is
      just past the last line emitted, whatever the bytes are. */
  lemma {:induction false} NoCrashExactlyOnce(f: seq<Byte>, inode: nat, steps: seq<Step>)
    requires forall i :: 0 <= i < |steps| ==> !steps[i].Crash?
    ensures var st := Run(f, inode, steps);
            && Steady(f, inode, st)
            && InSequence(f, st.emitted)
            && (st.phase.Idle? || st.phase.Reading? ==> st.mem.offset == NextAfter(f, st.emitted))
  {
    if steps != [] {
      NoCrashExactlyOnce(f, inode, steps[..|steps| - 1]);
      SteadyStep(f, inode, Run(f, inode, steps[..|steps| - 1]), steps[|steps| - 1]);
    }
  }

  // ---------------------------------------------------------------------------
  // With crashes, when every line keeps its length.
  // ---------------------------------------------------------------------------

  ghost predicate Safe(f: seq<Byte>, inode: nat, st: State) {
    && AtLine(f, inode, st)
    && st.mem.offset == Position(st)
    && LineStart(f, st.disk.offset) && st.disk.offset <= st.visible
    && NoneSkipped(f, st.emitted)
    && st.disk.offset <= Position(st) <= NextAfter(f, st.emitted)
    && EmittedBefore(f, st.emitted, Position(st)) && EmittedBefore(f, st.emitted, st.disk.offset)
  }

  /** Handing over the line at `pos` moves the cover past it. */
  lemma CoverGrows(f: seq<Byte>, emitted: seq<nat>, pos: nat)
    requires EmittedBefore(f, emitted, pos) && pos <= |f| && EndOf(f, pos, |f|) != 0
    ensures EmittedBefore(f, emitted + [pos], EndOf(f, pos, |f|))
  {
    forall q | 0 <= q < EndOf(f, pos, |f|) && Complete(f, q, |f|) ensures q in emitted + [pos] {
      NoStartInside(f, pos, |f|, q);
    }
  }

  lemma CoverKept(f: seq<Byte>, emitted: seq<nat>, more: seq<nat>, p: nat)
    requires EmittedBefore(f, emitted, p)
    ensures EmittedBefore(f, emitted + more, p)
  {
  }

  lemma NoneSkippedGrows(f: seq<Byte>, emitted: seq<nat>, pos: nat)
    requires NoneSkipped(f, emitted) && Complete(f, pos, |f|) && pos <= NextAfter(f, emitted)
    ensures NoneSkipped(f, emitted + [pos]) && NextAfter(f, emitted + [pos]) == EndOf(f, pos, |f|)
    ensures NextAfter(f, emitted + [pos]) != 0
  {
  }

  lemma SafeNext(f: seq<Byte>, inode: nat, st: State)
    requires Safe(f, inode, st) && st.phase.Batch? && EndOf(f, st.phase.pos, st.phase.limit) != 0
    requires Complete(f, st.phase.pos, |f|) && Exact(f, st.phase.pos)
    ensures Safe(f, inode, TakeNext(f, st))
  {
    var pos := st.phase.pos;
    EndOfStable(f, pos, st.phase.limit, |f|);
    CoverGrows(f, st.emitted, pos);
    CoverKept(f, st.emitted, [pos], st.disk.offset);
    NoneSkippedGrows(f, st.emitted, pos);
  }

  lemma SafeStep(f: seq<Byte>, inode: nat, st: State, step: Step)
    requires AllExact(f) && Safe(f, inode, st)
    ensures Safe(f, inode, Apply(f, inode, st, step))
  {
    if step.Next? && st.phase.Batch? && EndOf(f, st.phase.pos, st.phase.limit) != 0 {
      EndOfStable(f, st.phase.pos, st.phase.limit, |f|);
      assert Complete(f, st.phase.pos, |f|);
      SafeNext(f, inode, st);
    }
  }

  lemma {:induction false} RunSafe(f: seq<Byte>, inode: nat, steps: seq<Step>)
    requires AllExact(f)
    ensures Safe(f, inode, Run(f, inode, steps))
  {
    if steps != [] {
      RunSafe(f, inode, steps[..|steps| - 1]);
      SafeStep(f, inode, Run(f, inode, steps[..|steps| - 1]), steps[|steps| - 1]);
    }
  }

  /** No complete line from the tail's offset on, yet all complete lines emitted. */
  predicate NothingLost(f: seq<Byte>, st: State) {
    st.phase.Idle? && st.mem.offset <= |f| && EndOf(f, st.mem.offset, |f|) == 0 ==>
      forall p :: 0 <= p <= |f| && Complete(f, p, |f|) ==> p in st.emitted
  }

  lemma EverythingBefore(f: seq<Byte>, p: nat, q: nat)
    requires q <= |f| && EndOf(f, q, |f|) == 0 && Complete(f, p, |f|)
    ensures p < q
  {
  }

  /** On a file whose lines keep their length, valid UTF-8 for one, however it grows and however often
      the agent crashes, no line is skipped, and a tail that has nothing more to read has emitted
      every complete line. */
  lemma CrashesLoseNothing(f: seq<Byte>, inode: nat, steps: seq<Step>)
    requires AllExact(f)
    ensures var st := Run(f, inode, steps);
            NoneSkipped(f, st.emitted) && NothingLost(f, st)
  {
    RunSafe(f, inode, steps);
    var st := Run(f, inode, steps);
    if st.phase.Idle? && EndOf(f, st.mem.offset, |f|) == 0 {
      forall p | 0 <= p <= |f| && Complete(f, p, |f|) ensures p in st.emitted {
        EverythingBefore(f, p, st.mem.offset);
      }
    }
  }

  // ---------------------------------------------------------------------------
  // Valid UTF-8 is enough.
  // ---------------------------------------------------------------------------

  lemma {:induction false} ValidFromLine(f: seq<Byte>, p: nat)
    requires IsUtf8(f) && LineStart(f, p)
    ensures IsUtf8(f[p..])
  {
    if p == 0 {
      assert f[0..] == f;
    } else {
      CutAfterNewline(f, p - 1);
    }
  }

  lemma ValidIsExact(f: seq<Byte>)
    requires IsUtf8(f)
    ensures AllExact(f)
  {
    forall p | 0 <= p <= |f| && Complete(f, p, |f|) ensures Exact(f, p) {
      ValidFromLine(f, p);
      LineKeepsLength(f, p, EndOf(f, p, |f|));
    }
  }

  lemma LineKeepsLength(f: seq<Byte>, p: nat, e: nat)
    requires p < e <= |f| && IsUtf8(f[p..]) && f[e - 1] == NEWLINE
    ensures Reencoded(f[p..e]) == e - p
  {
    var tail := f[p..];
    CutAfterNewline(tail, e - p - 1);
    assert tail[..e - p] == f[p..e];
    ValidKeepsLength(f[p..e]);
  }

  // ---------------------------------------------------------------------------
  // When every save succeeds.
  // ---------------------------------------------------------------------------

  /** The line before `Position` is the one to be repeated if the agent crashed before saving. */
  predicate RepeatDue(st: State) {
    st.emitted != [] && st.emitted[|st.emitted| - 1] == Position(st)
  }

  ghost predicate Saved(f: seq<Byte>, inode: nat, st: State) {
    && AtLine(f, inode, st)
    && st.mem.offset == Position(st)
    && OnlyRepeats(f, st.emitted)
    && (if st.phase.Handed?
        then st.emitted != [] && st.emitted[|st.emitted| - 1] == st.disk.offset && Position(st) == NextAfter(f, st.emitted)
        else st.disk.offset == Position(st) && (RepeatDue(st) || Position(st) == NextAfter(f, st.emitted)))
    && Repeats(st.emitted) + (if RepeatDue(st) then 1 else 0) <= st.crashes
  }

  lemma OnlyRepeatsGrows(f: seq<Byte>, emitted: seq<nat>, pos: nat)
    requires OnlyRepeats(f, emitted) && Complete(f, pos, |f|)
    requires pos == NextAfter(f, emitted) || (emitted != [] && pos == emitted[|emitted| - 1])
    ensures OnlyRepeats(f, emitted + [pos])
  {
    var longer := emitted + [pos];
    forall i | 0 < i < |longer|
      ensures longer[i] == longer[i - 1] || longer[i] == EndOf(f, longer[i - 1], |f|)
    {
      assert longer[i - 1] == emitted[i - 1];
    }
  }

  lemma RepeatsGrow(emitted: seq<nat>, pos: nat)
    ensures Repeats(emitted + [pos]) ==
            Repeats(emitted) + if emitted != [] && pos == emitted[|emitted| - 1] then 1 else 0
  {
    assert (emitted + [pos])[..|emitted|] == emitted;
  }

  lemma SavedNext(f: seq<Byte>, inode: nat, st: State)
    requires Saved(f, inode, st) && st.phase.Batch? && EndOf(f, st.phase.pos, st.phase.limit) != 0
    requires Complete(f, st.phase.pos, |f|) && Exact(f, st.phase.pos)
    ensures Saved(f, inode, TakeNext(f, st))
  {
    var pos := st.phase.pos;
    EndOfStable(f, pos, st.phase.limit, |f|);
    OnlyRepeatsGrows(f, st.emitted, pos);
    RepeatsGrow(st.emitted, pos);
  }

  lemma SavedPoll(f: seq<Byte>, inode: nat, st: State, step: Step)
    requires Saved(f, inode, st) && (step.Grow? || step.Poll? || step.Read?)
    ensures Saved(f, inode, Apply(f, inode, st, step))
  {
  }

  lemma SavedSettles(f: seq<Byte>, inode: nat, st: State, step: Step)
    requires Saved(f, inode, st) && (step == Save(true) || step.Crash?)
    ensures Saved(f, inode, Apply(f, inode, st, step))
  {
  }

  lemma SavedStep(f: seq<Byte>, inode: nat, st: State, step: Step)
    requires AllExact(f) && Saved(f, inode, st) && step != Save(false)
    ensures Saved(f, inode, Apply(f, inode, st, step))
  {
    match step
    case Next =>
      if st.phase.Batch? && EndOf(f, st.phase.pos, st.phase.limit) != 0 {
        EndOfStable(f, st.phase.pos, st.phase.limit, |f|);
        assert Complete(f, st.phase.pos, |f|);
        SavedNext(f, inode, st);
      }
    case Save(_) => SavedSettles(f, inode, st, step);
    case Crash => SavedSettles(f, inode, st, step);
    case _ => SavedPoll(f, inode, st, step);
  }

  /** If saves succeed, each crash repeats at most the line that was in hand. */
  lemma {:induction false} CrashRepeatsAtMostOne(f: seq<Byte>, inode: nat, steps: seq<Step>)
    requires AllExact(f)
    requires forall i :: 0 <= i < |steps| ==> steps[i] != Save(false)
    ensures var st := Run(f, inode, steps);
            Saved(f, inode, st) && OnlyRepeats(f, st.emitted) && Repeats(st.emitted) <= st.crashes
  {
    if steps != [] {
      CrashRepeatsAtMostOne(f, inode, steps[..|steps| - 1]);
      SavedStep(f, inode, Run(f, inode, steps[..|steps| - 1]), steps[|steps| - 1]);
    }
  }

  // ---------------------------------------------------------------------------
  // One inexact line is enough to lose a line.
  // ---------------------------------------------------------------------------

  /** `f` ends with a complete line, the one at `last`. */
  predicate EndsWithLine(f: seq<Byte>, last: nat) {
    Complete(f, last, |f|) && EndOf(f, last, |f|) == |f|
  }

  predicate ExactFrom(h: seq<Byte>, from: nat) {
    forall p :: from <= p <= |h| && Complete(h, p, |h|) ==> Exact(h, p)
  }

  /** However the file goes on with lines that keep their length, no schedule loses a line. */
  ghost predicate NeverLoses(f: seq<Byte>) {
    forall g: seq<Byte>, inode: nat, steps: seq<Step> ::
      ExactFrom(f + g, |f|) ==> NothingLost(f + g, Run(f + g, inode, steps))
  }

  lemma {:induction false} EndOfExtended(f: seq<Byte>, g: seq<Byte>, p: nat, limit: nat)
    requires limit <= |f|
    ensures EndOf(f + g, p, limit) == EndOf(f, p, limit)
    decreases limit - p
  {
    if p < limit { EndOfExtended(f, g, p + 1, limit); }
  }

  lemma RunOne(h: seq<Byte>, inode: nat, steps: seq<Step>, step: Step)
    ensures Run(h, inode, steps + [step]) == Apply(h, inode, Run(h, inode, steps), step)
  {
    assert (steps + [step])[..|steps|] == steps;
  }

  /** The tail in the middle of its first batch, the lines before `p` emitted and saved. */
  predicate Draining(size: nat, inode: nat, p: nat, st: State) {
    && st == State(size, Checkpoint(Some(inode), p), st.disk, Batch(p, size), st.emitted, 0)
    && forall i :: 0 <= i < |st.emitted| ==> st.emitted[i] < p
  }

  /** A schedule that drains the lines before `last`, all of which keep their length. */
  lemma DrainTo(h: seq<Byte>, size: nat, inode: nat, last: nat) returns (steps: seq<Step>)
    requires size <= |h| && Complete(h, last, size)
    requires forall p :: 0 <= p < last && Complete(h, p, |h|) ==> Exact(h, p)
    ensures Draining(size, inode, last, Run(h, inode, steps))
  {
    steps := [Grow(size)];
    RunOne(h, inode, [], Grow(size));
    RunOne(h, inode, steps, Poll);
    steps := steps + [Poll];
    RunOne(h, inode, steps, Read);
    steps := steps + [Read];
    var p := 0;
    while p != last
      invariant p <= last && LineStart(h, p)
      invariant Draining(size, inode, p, Run(h, inode, steps))
      decreases last - p
    {
      DrainOne(h, size, inode, p, last, steps);
      p, steps := EndOf(h, p, size), steps + [Next] + [Save(true)];
    }
  }

  lemma DrainOne(h: seq<Byte>, size: nat, inode: nat, p: nat, last: nat, steps: seq<Step>)
    requires size <= |h| && Complete(h, last, size) && LineStart(h, p) && p < last
    requires forall q :: 0 <= q < last && Complete(h, q, |h|) ==> Exact(h, q)
    requires Draining(size, inode, p, Run(h, inode, steps))
    ensures p < EndOf(h, p, size) <= last && LineStart(h, EndOf(h, p, size))
    ensures Draining(size, inode, EndOf(h, p, size), Run(h, inode, steps + [Next] + [Save(true)]))
  {
    assert h[last - 1] == NEWLINE && last - 1 < size;
    EndOfStable(h, p, size, |h|);
    NoStartInside(h, p, size, last);
    assert Exact(h, p);
    RunOne(h, inode, steps, Next);
    RunOne(h, inode, steps + [Next], Save(true));
  }

  /** Letters and one newline: a line that keeps its length. */
  function Plain(n: nat): seq<Byte> {
    if n == 0 then [NEWLINE] else [0x78] + Plain(n - 1)
  }

  lemma {:induction false} PlainLine(n: nat)
    ensures |Plain(n)| == n + 1 && Plain(n)[n] == NEWLINE && IsUtf8(Plain(n))
    ensures forall i :: 0 <= i < n ==> Plain(n)[i] != NEWLINE
  {
    var t := Plain(n);
    if n > 0 {
      PlainLine(n - 1);
      assert t[1..] == Plain(n - 1);
      assert forall i :: 0 < i <= n ==> t[i] == Plain(n - 1)[i - 1];
    }
  }

  /** The last line of `f` does not keep its length: saved after it, the checkpoint points past
      its end; a crash there, and the line that follows is never emitted. */
  lemma InexactLosesNext(f: seq<Byte>, last: nat)
    requires EndsWithLine(f, last) && !Exact(f, last)
    requires forall p :: 0 <= p < last && Complete(f, p, |f|) ==> Exact(f, p)
    ensures !NeverLoses(f)
  {
    var over := Reencoded(f[last..|f|]) - (|f| - last);
    ReencodedAtLeast(f[last..|f|]);
    var g := Plain(over);
    var h := f + g;
    PlainIsExact(f, over);
    forall p | 0 <= p < last && Complete(h, p, |h|) ensures Exact(h, p) { BeforeIsExact(f, g, p, last); }
    EndOfExtended(f, g, last, |f|);
    var steps := DrainTo(h, |f|, 0, last);
    LoseNext(f, over, last, steps);
  }

  lemma BeforeIsExact(f: seq<Byte>, g: seq<Byte>, p: nat, last: nat)
    requires EndsWithLine(f, last) && p < last && Complete(f + g, p, |f + g|)
    requires Complete(f, p, |f|) ==> Exact(f, p)
    ensures Exact(f + g, p)
  {
    var h := f + g;
    assert h[|f| - 1] == NEWLINE;
    assert EndOf(f, p, |f|) != 0;
    EndOfExtended(f, g, p, |f|);
    EndOfStable(h, p, |f|, |h|);
    assert h[p..EndOf(f, p, |f|)] == f[p..EndOf(f, p, |f|)];
  }

  /** After `f`, the plain line is the only one. */
  lemma PlainTail(f: seq<Byte>, n: nat)
    requires f != [] && f[|f| - 1] == NEWLINE
    ensures Complete(f + Plain(n), |f|, |f + Plain(n)|)
    ensures forall q :: |f| <= q <= |f| + n ==> EndOf(f + Plain(n), q, |f + Plain(n)|) == |f + Plain(n)|
    ensures EndOf(f + Plain(n), |f + Plain(n)|, |f + Plain(n)|) == 0
  {
    PlainLine(n);
    var g := Plain(n);
    var h := f + g;
    assert forall i :: 0 <= i < |g| ==> h[|f| + i] == g[i];
    forall q | |f| <= q <= |f| + n ensures EndOf(h, q, |h|) == |h| {
      PlainEnd(h, q);
    }
  }

  /** It keeps its length. */
  lemma PlainIsExact(f: seq<Byte>, n: nat)
    requires f != [] && f[|f| - 1] == NEWLINE
    ensures ExactFrom(f + Plain(n), |f|)
  {
    var h := f + Plain(n);
    PlainLine(n);
    PlainTail(f, n);
    assert h[|f|..|h|] == Plain(n);
    ValidKeepsLength(Plain(n));
    forall p | |f| <= p <= |h| && Complete(h, p, |h|) ensures Exact(h, p) {
      NoStartInside(h, |f|, |h|, p);
    }
  }

  lemma PlainEnd(h: seq<Byte>, q: nat)
    requires q < |h| && h[|h| - 1] == NEWLINE && forall i :: q <= i < |h| - 1 ==> h[i] != NEWLINE
    ensures EndOf(h, q, |h|) == |h|
  {
  }

  /** The last line is emitted, the overshooting checkpoint saved, and the agent crashes. */
  lemma CrashAfterLast(f: seq<Byte>, g: seq<Byte>, over: nat, last: nat, steps: seq<Step>, emitted: seq<nat>, disk: Checkpoint)
    requires EndsWithLine(f, last) && Reencoded(f[last..|f|]) == |f| - last + over
    requires Run(f + g, 0, steps) == State(|f|, Checkpoint(Some(0), last), disk, Batch(last, |f|), emitted, 0)
    ensures var cp := Checkpoint(Some(0), |f| + over);
            Run(f + g, 0, steps + [Next] + [Save(true)] + [Crash]) == State(|f|, cp, cp, Idle, emitted + [last], 1)
  {
    var h := f + g;
    EndOfExtended(f, g, last, |f|);
    SameSlice(f, g, last);
    RunOne(h, 0, steps, Next);
    RunOne(h, 0, steps + [Next], Save(true));
    RunOne(h, 0, steps + [Next] + [Save(true)], Crash);
  }

  /** The file grows and the tail reads on from where the checkpoint points. */
  lemma ReadOn(h: seq<Byte>, size: nat, cp: Checkpoint, steps: seq<Step>, emitted: seq<nat>)
    requires size <= |h| && cp.inode == Some(0) && cp.offset < |h|
    requires Run(h, 0, steps) == State(size, cp, cp, Idle, emitted, 1)
    ensures Run(h, 0, steps + [Grow(|h|)] + [Poll] + [Read]) ==
            State(|h|, cp, cp, Batch(cp.offset, |h|), emitted, 1)
  {
    RunOne(h, 0, steps, Grow(|h|));
    RunOne(h, 0, steps + [Grow(|h|)], Poll);
    RunOne(h, 0, steps + [Grow(|h|)] + [Poll], Read);
  }

  /** It finds one more newline and comes to rest. */
  lemma FinishBatch(h: seq<Byte>, pos: nat, cp: Checkpoint, steps: seq<Step>, emitted: seq<nat>)
    requires pos < |h| && EndOf(h, pos, |h|) == |h| && EndOf(h, |h|, |h|) == 0
    requires Run(h, 0, steps) == State(|h|, cp, cp, Batch(pos, |h|), emitted, 1)
    ensures var st := Run(h, 0, steps + [Next] + [Save(true)] + [Next]);
            st.phase == Idle && st.mem.offset == |h| && st.emitted == emitted + [pos]
  {
    RunOne(h, 0, steps, Next);
    var after := Run(h, 0, steps + [Next]);
    assert after.phase == Handed(|h|, |h|) && after.emitted == emitted + [pos];
    RunOne(h, 0, steps + [Next], Save(true));
    RunOne(h, 0, steps + [Next] + [Save(true)], Next);
  }

  lemma CrashThenRead(f: seq<Byte>, g: seq<Byte>, over: nat, last: nat, steps: seq<Step>) returns (reading: seq<Step>)
    requires EndsWithLine(f, last) && Reencoded(f[last..|f|]) == |f| - last + over && over < |g|
    requires Draining(|f|, 0, last, Run(f + g, 0, steps))
    ensures var (cp, h) := (Checkpoint(Some(0), |f| + over), f + g);
            Run(h, 0, reading) ==
            State(|h|, cp, cp, Batch(cp.offset, |h|), Run(h, 0, steps).emitted + [last], 1)
  {
    var st := Run(f + g, 0, steps);
    CrashAfterLast(f, g, over, last, steps, st.emitted, st.disk);
    var crashed := steps + [Next] + [Save(true)] + [Crash];
    ReadOn(f + g, |f|, Checkpoint(Some(0), |f| + over), crashed, st.emitted + [last]);
    reading := crashed + [Grow(|f + g|)] + [Poll] + [Read];
  }

  /** The schedule: emit the last line, save, crash; the file grows by one line; read on. */
  lemma CrashSchedule(f: seq<Byte>, over: nat, last: nat, steps: seq<Step>) returns (all: seq<Step>)
    requires EndsWithLine(f, last) && over > 0 && Reencoded(f[last..|f|]) == |f| - last + over
    requires Draining(|f|, 0, last, Run(f + Plain(over), 0, steps))
    ensures var (h, st) := (f + Plain(over), Run(f + Plain(over), 0, all));
            && st.phase == Idle && st.mem.offset == |h|
            && st.emitted == Run(h, 0, steps).emitted + [last] + [|f| + over]
  {
    PlainLine(over);
    PlainTail(f, over);
    var reading := CrashThenRead(f, Plain(over), over, last, steps);
    var (h, emitted) := (f + Plain(over), Run(f + Plain(over), 0, steps).emitted + [last]);
    FinishBatch(h, |f| + over, Checkpoint(Some(0), |f| + over), reading, emitted);
    all := reading + [Next] + [Save(true)] + [Next];
  }

  lemma LoseNext(f: seq<Byte>, over: nat, last: nat, steps: seq<Step>)
    requires EndsWithLine(f, last) && over > 0 && Reencoded(f[last..|f|]) == |f| - last + over
    requires Draining(|f|, 0, last, Run(f + Plain(over), 0, steps))
    ensures exists steps' :: !NothingLost(f + Plain(over), Run(f + Plain(over), 0, steps'))
  {
    var h := f + Plain(over);
    PlainLine(over);
    PlainTail(f, over);
    var all := CrashSchedule(f, over, last, steps);
    LineMissed(h, Run(h, 0, all), Run(h, 0, steps).emitted, last, |f|, |f| + over);
  }

  lemma LineMissed(h: seq<Byte>, st: State, before: seq<nat>, last: nat, p: nat, q: nat)
    requires st.phase == Idle && st.mem.offset == |h| && EndOf(h, |h|, |h|) == 0
    requires st.emitted == before + [last] + [q] && last < p < q && forall i :: 0 <= i < |before| ==> before[i] < last
    requires p <= |h| && Complete(h, p, |h|)
    ensures !NothingLost(h, st)
  {
  }

  /** For a file whose lines keep their length up to the last, crashes are safe from there on
      exactly when the last line keeps its length too. */
  lemma CrashSafeIffExact(f: seq<Byte>, last: nat)
    requires EndsWithLine(f, last)
    requires forall p :: 0 <= p < last && Complete(f, p, |f|) ==> Exact(f, p)
    ensures NeverLoses(f) <==> Exact(f, last)
  {
    if Exact(f, last) {
      forall g: seq<Byte>, inode: nat, steps: seq<Step> | ExactFrom(f + g, |f|)
        ensures NothingLost(f + g, Run(f + g, inode, steps))
      {
        forall p | 0 <= p <= |f + g| && Complete(f + g, p, |f + g|) ensures Exact(f + g, p) {
          if p < last { BeforeIsExact(f, g, p, last); } else if p < |f| { LastIsExact(f, g, p, last); }
        }
        CrashesLoseNothing(f + g, inode, steps);
      }
    } else {
      InexactLosesNext(f, last);
    }
  }

  lemma LastIsExact(f: seq<Byte>, g: seq<Byte>, p: nat, last: nat)
    requires EndsWithLine(f, last) && Exact(f, last)
    requires last <= p < |f| && Complete(f + g, p, |f + g|)
    ensures Exact(f + g, p)
  {
    OnlyLast(f, g, p, last);
    SameSlice(f, g, last);
  }

  lemma OnlyLast(f: seq<Byte>, g: seq<Byte>, p: nat, last: nat)
    requires EndsWithLine(f, last)
    requires last <= p < |f| && LineStart(f + g, p)
    ensures p == last && EndOf(f + g, p, |f + g|) == |f|
  {
    EndOfExtended(f, g, last, |f|);
    NoStartInside(f + g, last, |f|, p);
    EndOfStable(f + g, last, |f|, |f + g|);
  }

  lemma SameSlice(f: seq<Byte>, g: seq<Byte>, p: nat)
    requires p <= |f|
    ensures (f + g)[p..|f|] == f[p..|f|]
  {
  }

  /** A line of one invalid byte is such a file: it is read as one character that takes three bytes
      to encode. */
  lemma BadByteLosesNext()
    ensures var f: seq<Byte> := [0xFF, NEWLINE];
            EndsWithLine(f, 0) && !Exact(f, 0) && !NeverLoses(f)
  {
    var f: seq<Byte> := [0xFF, NEWLINE];
    assert EndOf(f, 1, 2) == 2 && EndOf(f, 0, 2) == 2;
    assert f[0..2] == f && f[1..] == [NEWLINE] && f[1..][1..] == [];
    assert Reencoded(f[1..]) == 1 && WellFormedPrefix(f) == 1;
    assert Reencoded(f) == 4;
    CrashSafeIffExact(f, 0);
  }

  // ---------------------------------------------------------------------------
  // Every file.
  // ---------------------------------------------------------------------------

  /** A complete line that does not keep its length. */
  predicate IsInexact(f: seq<Byte>, p: nat) {
    Complete(f, p, |f|) && !Exact(f, p)
  }

  lemma FirstInexact(f: seq<Byte>, p: nat) returns (q: nat)
    requires IsInexact(f, p)
    ensures IsInexact(f, q) && forall x :: 0 <= x < q && Complete(f, x, |f|) ==> Exact(f, x)
  {
    if x :| 0 <= x < p && IsInexact(f, x) {
      q := FirstInexact(f, x);
    } else {
      q := p;
      forall x | 0 <= x < p && Complete(f, x, |f|) ensures Exact(f, x) {
        assert !IsInexact(f, x);
      }
    }
  }

  /** The file ends with some line, if it ends with a newline. */
  lemma LastLine(f: seq<Byte>) returns (p: nat)
    requires f != [] && f[|f| - 1] == NEWLINE
    ensures EndsWithLine(f, p)
  {
    p := |f| - 1;
    while p > 0 && f[p - 1] != NEWLINE
      invariant p < |f| && forall i :: p <= i < |f| - 1 ==> f[i] != NEWLINE
    {
      p := p - 1;
    }
    PlainEnd(f, p);
  }

  /** The lines of a prefix that ends with a line are lines of the file, and as exact. */
  lemma PrefixLine(f: seq<Byte>, n: nat, p: nat)
    requires 0 < n <= |f| && f[n - 1] == NEWLINE && p < n
    ensures Complete(f[..n], p, n) <==> Complete(f, p, |f|)
    ensures Complete(f[..n], p, n) ==>
              EndOf(f[..n], p, n) == EndOf(f, p, |f|) <= n && (Exact(f[..n], p) <==> Exact(f, p))
  {
    assert f[..n] + f[n..] == f;
    EndOfExtended(f[..n], f[n..], p, n);
    assert EndOf(f, p, n) != 0;
    EndOfStable(f, p, n, |f|);
    assert p > 0 ==> f[..n][p - 1] == f[p - 1];
    assert f[..n][p..EndOf(f, p, n)] == f[p..EndOf(f, p, n)];
  }

  /** Crashes are safe wherever the file may end, and however it then goes on with lines that keep
      their length, if and only if every line of it keeps its length. */
  lemma SafeThroughoutIff(f: seq<Byte>)
    ensures (forall n :: 0 < n <= |f| && f[n - 1] == NEWLINE ==> NeverLoses(f[..n])) <==> AllExact(f)
  {
    if AllExact(f) {
      forall n | 0 < n <= |f| && f[n - 1] == NEWLINE ensures NeverLoses(f[..n]) {
        var last := LastLine(f[..n]);
        PrefixExact(f, n, last + 1);
        CrashSafeIffExact(f[..n], last);
      }
    } else {
      var some :| 0 <= some <= |f| && Complete(f, some, |f|) && !Exact(f, some);
      var p := FirstInexact(f, some);
      var n := EndOf(f, p, |f|);
      PrefixLine(f, n, p);
      PrefixExact(f, n, p);
      CrashSafeIffExact(f[..n], p);
    }
  }

  lemma PrefixExact(f: seq<Byte>, n: nat, bound: nat)
    requires 0 < n <= |f| && f[n - 1] == NEWLINE && bound <= n
    requires forall x :: 0 <= x < bound && Complete(f, x, |f|) ==> Exact(f, x)
    ensures forall x :: 0 <= x < bound && Complete(f[..n], x, n) ==> Exact(f[..n], x)
  {
    forall x | 0 <= x < bound && Complete(f[..n], x, n) ensures Exact(f[..n], x) {
      PrefixLine(f, n, x);
    }
  }
}
