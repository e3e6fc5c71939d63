/** Tailing an append-only log file across crashes: the checkpoint, the batch reader, and what
    every schedule of growth, polls, saves and crashes emits. */
module Tail {
  import opened Options
  import opened Utf8

  datatype Checkpoint = Checkpoint(inode: Option<nat>, offset: nat)

  // ---------------------------------------------------------------------------
  // Lines by position.
  // ---------------------------------------------------------------------------

  /** Position just past the first newline at or after `p` and before `limit`; 0 for none. */
  function EndOf(f: seq<Byte>, p: nat, limit: nat): (e: nat)
    requires limit <= |f|
    ensures e == 0 || (p < e <= limit && f[e - 1] == NEWLINE)
    ensures forall i :: p <= i < limit && (e == 0 || i < e - 1) ==> f[i] != NEWLINE
    decreases limit - p
  {
    if p >= limit then 0 else if f[p] == NEWLINE then p + 1 else EndOf(f, p + 1, limit)
  }

  /** A line of the file starts at `p`. */
  predicate LineStart(f: seq<Byte>, p: nat) {
    p <= |f| && (p == 0 || f[p - 1] == NEWLINE)
  }

  /** A line starts at `p` and is complete in the first `limit` bytes. */
  predicate Complete(f: seq<Byte>, p: nat, limit: nat) {
    limit <= |f| && LineStart(f, p) && EndOf(f, p, limit) != 0
  }

  /** A newline seen within one limit is the one seen within any larger. */
  lemma {:induction false} EndOfStable(f: seq<Byte>, p: nat, limit: nat, more: nat)
    requires limit <= more <= |f| && EndOf(f, p, limit) != 0
    ensures EndOf(f, p, more) == EndOf(f, p, limit)
    decreases limit - p
  {
    if p < limit && f[p] != NEWLINE { EndOfStable(f, p + 1, limit, more); }
  }

  /** No line starts strictly inside another. */
  lemma NoStartInside(f: seq<Byte>, p: nat, limit: nat, q: nat)
    requires limit <= |f| && EndOf(f, p, limit) != 0 && LineStart(f, q)
    ensures q <= p || EndOf(f, p, limit) <= q
  {
  }

  /** `buf` holds the bytes of the file from `start` to before `limit`. */
  predicate IsRead(f: seq<Byte>, start: nat, limit: nat, buf: seq<Byte>) {
    start <= limit <= |f| && |buf| == limit - start && forall i :: 0 <= i < |buf| ==> buf[i] == f[start + i]
  }

  /** The bytes read from `start` on are cut where the file is. */
  lemma {:induction false} EndOfShifted(f: seq<Byte>, start: nat, limit: nat, buf: seq<Byte>, p: nat)
    requires IsRead(f, start, limit, buf) && p <= |buf|
    ensures EndOf(f, start + p, limit) == if EndOf(buf, p, |buf|) == 0 then 0 else start + EndOf(buf, p, |buf|)
    decreases |buf| - p
  {
    if p < |buf| && buf[p] != NEWLINE { EndOfShifted(f, start, limit, buf, p + 1); }
  }

  /** The complete lines of `buf` from `p` on. */
  function LinesFrom(buf: seq<Byte>, p: nat): seq<seq<Byte>>
    requires p <= |buf|
    decreases |buf| - p
  {
    var e := EndOf(buf, p, |buf|);
    if e == 0 then [] else [buf[p..e]] + LinesFrom(buf, e)
  }

  /** Position just past the last newline at or after `p`; `p` for none. */
  function LastEnd(buf: seq<Byte>, p: nat): (e: nat)
    requires p <= |buf|
    ensures p <= e <= |buf| && EndOf(buf, e, |buf|) == 0
    ensures e > p ==> buf[e - 1] == NEWLINE
    decreases |buf| - p
  {
    var e := EndOf(buf, p, |buf|);
    if e == 0 then p else LastEnd(buf, e)
  }

  /** `_read_complete_lines`: `buf` is cut after every newline, and the fragment after the last one
      is left for the next read. */
  method ReadCompleteLines(buf: seq<Byte>, startOffset: nat) returns (out: seq<seq<Byte>>, endOffset: nat)
    ensures out == LinesFrom(buf, 0)
    ensures endOffset == startOffset + LastEnd(buf, 0)
  {
    out, endOffset := [], startOffset;
    var pos := 0;
    while true
      invariant pos <= |buf| && endOffset == startOffset + pos
      invariant LinesFrom(buf, 0) == out + LinesFrom(buf, pos)
      invariant LastEnd(buf, 0) == LastEnd(buf, pos)
      decreases |buf| - pos
    {
      var nl := EndOf(buf, pos, |buf|);
      if nl == 0 {
        break;
      }
      assert LinesFrom(buf, pos) == [buf[pos..nl]] + LinesFrom(buf, nl);
      out := out + [buf[pos..nl]];
      endOffset := endOffset + (nl - pos);
      pos := nl;
    }
  }

  function Flat(lines: seq<seq<Byte>>): seq<Byte> {
    if lines == [] then [] else lines[0] + Flat(lines[1..])
  }

  /** One newline, at the end. */
  predicate IsLine(line: seq<Byte>) {
    line != [] && line[|line| - 1] == NEWLINE && forall i :: 0 <= i < |line| - 1 ==> line[i] != NEWLINE
  }

  lemma FirstLine(buf: seq<Byte>, p: nat)
    requires p <= |buf| && EndOf(buf, p, |buf|) != 0
    ensures IsLine(buf[p..EndOf(buf, p, |buf|)])
  {
  }

  lemma {:induction false} EachIsLine(buf: seq<Byte>, p: nat)
    requires p <= |buf|
    ensures forall line :: line in LinesFrom(buf, p) ==> IsLine(line)
    decreases |buf| - p
  {
    var e := EndOf(buf, p, |buf|);
    if e != 0 {
      FirstLine(buf, p);
      EachIsLine(buf, e);
    }
  }

  lemma FlatCons(line: seq<Byte>, rest: seq<seq<Byte>>)
    ensures Flat([line] + rest) == line + Flat(rest)
  {
    assert ([line] + rest)[1..] == rest;
  }

  lemma Adjacent(buf: seq<Byte>, a: nat, b: nat, c: nat)
    requires a <= b <= c <= |buf|
    ensures buf[a..b] + buf[b..c] == buf[a..c]
  {
  }

  /** The lines put together are exactly the bytes up to the last newline, each with one newline at
      its end. */
  lemma {:induction false} LinesCutExactly(buf: seq<Byte>, p: nat)
    requires p <= |buf|
    ensures Flat(LinesFrom(buf, p)) == buf[p..LastEnd(buf, p)]
    ensures forall line :: line in LinesFrom(buf, p) ==> IsLine(line)
    decreases |buf| - p
  {
    EachIsLine(buf, p);
    var e := EndOf(buf, p, |buf|);
    if e != 0 {
      LinesCutExactly(buf, e);
      FlatCons(buf[p..e], LinesFrom(buf, e));
      Adjacent(buf, p, e, LastEnd(buf, e));
    }
  }

  // ---------------------------------------------------------------------------
  // The tail as a state machine.
  // ---------------------------------------------------------------------------

  /** What the poll does to the checkpoint: adopt a new inode, start over after a rotation or a
      truncation. */
  function Observe(cp: Checkpoint, inode: nat, size: nat): Checkpoint {
    var offset := if cp.inode.Some? && cp.inode.value != inode then 0 else cp.offset;
    Checkpoint(Some(inode), if size < offset then 0 else offset)
  }

  /** `Batch` and `Handed` hold where the next line of the batch starts and how much of the file
      was there to read. */
  datatype Phase =
    | Idle
    | Reading
    | Batch(pos: nat, limit: nat)
    | Handed(pos: nat, limit: nat)

  /** `emitted` lists the positions of the lines handed to the consumer. */
  datatype State = State(
    visible: nat,
    mem: Checkpoint,
    disk: Checkpoint,
    phase: Phase,
    emitted: seq<nat>,
    crashes: nat)

  datatype Step = Grow(bytes: nat) | Poll | Read | Next | Save(ok: bool) | Crash

  const START := State(0, Checkpoint(None, 0), Checkpoint(None, 0), Idle, [], 0)

  /** Hand over the next line of the batch, the tally advanced by the length of its text; with
      no line left, trust the position that the reader found. */
  function TakeNext(f: seq<Byte>, st: State): State
    requires st.phase.Batch? && st.phase.limit <= |f|
  {
    var Batch(pos, limit) := st.phase;
    var e := EndOf(f, pos, limit);
    if e == 0 then st.(mem := st.mem.(offset := pos), phase := Idle)
    else
      st.(mem := st.mem.(offset := st.mem.offset + Reencoded(f[pos..e])),
          emitted := st.emitted + [pos],
          phase := Handed(e, limit))
  }

  /** One step of a tail on the file `f`, of which the first `visible` bytes are written. A step
      that does not fit the phase does nothing. */
  function Apply(f: seq<Byte>, inode: nat, st: State, step: Step): State {
    match step
    case Grow(n) => st.(visible := if st.visible + n <= |f| then st.visible + n else |f|)
    case Poll =>
      if st.phase.Idle? then
        var cp := Observe(st.mem, inode, st.visible);
        st.(mem := cp, phase := if cp.offset == st.visible then Idle else Reading)
      else st
    case Read => if st.phase.Reading? then st.(phase := Batch(st.mem.offset, st.visible)) else st
    case Next => if st.phase.Batch? && st.phase.limit <= |f| then TakeNext(f, st) else st
    case Save(ok) =>
      if st.phase.Handed? then
        st.(disk := if ok then st.mem else st.disk, phase := Batch(st.phase.pos, st.phase.limit))
      else st
    case Crash => st.(mem := st.disk, phase := Idle, crashes := st.crashes + 1)
  }

  function Run(f: seq<Byte>, inode: nat, steps: seq<Step>): State {
    if steps == [] then START else Apply(f, inode, Run(f, inode, steps[..|steps| - 1]), steps[|steps| - 1])
  }

  /** The running tally after `n` of the lines: each advances it by its length encoded again. */
  function Tally(offset: nat, lines: seq<seq<Byte>>, n: nat): nat
    requires n <= |lines|
  {
    if n == 0 then offset else Tally(offset, lines, n - 1) + Reencoded(lines[n - 1])
  }

  /** The tallies before the first line and after each of the first `n`. */
  predicate AreTallies(tallies: seq<nat>, offset: nat, lines: seq<seq<Byte>>, n: nat) {
    n <= |lines| && |tallies| == n + 1 && forall i :: 0 <= i <= n ==> tallies[i] == Tally(offset, lines, i)
  }

  lemma OneTallyMore(tallies: seq<nat>, offset: nat, lines: seq<seq<Byte>>, n: nat)
    requires n < |lines| && AreTallies(tallies, offset, lines, n)
    ensures AreTallies(tallies + [tallies[n] + Reencoded(lines[n])], offset, lines, n + 1)
  {
  }

  /** The reader as the source keeps it: two mutable fields. */
  class Reader {
    var inode: Option<nat>
    var offset: nat

    constructor (cp: Checkpoint)
      ensures View() == cp
    {
      inode, offset := cp.inode, cp.offset;
    }

    function View(): Checkpoint
      reads this
    {
      Checkpoint(inode, offset)
    }

    /** One look at the file: whether there is something to read. */
    method Stat(currentInode: nat, size: nat) returns (more: bool)
      modifies this
      ensures View() == Observe(old(View()), currentInode, size)
      ensures more <==> offset != size
    {
      if inode.Some? && inode.value != currentInode {
        inode := Some(currentInode);
        offset := 0;
      } else if inode.None? {
        inode := Some(currentInode);
      }
      if size < offset {
        offset := 0;
      }
      more := size != offset;
    }

    /** Emit the lines of one batch: the offset before the first and after each, and the offset
        trusted at the end. */
    method Deliver(lines: seq<seq<Byte>>, newOffset: nat) returns (tallies: seq<nat>)
      modifies this`offset
      ensures AreTallies(tallies, old(offset), lines, |lines|)
      ensures offset == newOffset
    {
      tallies := [offset];
      for i := 0 to |lines|
        invariant AreTallies(tallies, old(offset), lines, i) && tallies[i] == offset
      {
        OneTallyMore(tallies, old(offset), lines, i);
        offset := offset + Reencoded(lines[i]);
        tallies := tallies + [offset];
      }
      if offset != newOffset {
        offset := newOffset;
      }
    }
  }
}
