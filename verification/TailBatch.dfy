/** One batch of the tail, line by line: the steps of the state machine hand over exactly the lines
    that the reader cut out of the bytes it read, with the offsets that it kept. */
module TailBatch {
  import opened Utf8
  import opened Tail

  // ---------------------------------------------------------------------------
  // The lines of a stretch of the file.
  // ---------------------------------------------------------------------------

  /** The complete lines of the file from `pos` on, as far as `limit`. */
  function FileLines(f: seq<Byte>, pos: nat, limit: nat): seq<seq<Byte>>
    requires pos <= limit <= |f|
    decreases limit - pos
  {
    var e := EndOf(f, pos, limit);
    if e == 0 then [] else [f[pos..e]] + FileLines(f, e, limit)
  }

  /** Where line `k` of them starts; for the number of lines, where the last one ends. */
  function CutAt(f: seq<Byte>, pos: nat, limit: nat, k: nat): (cut: nat)
    requires pos <= limit <= |f|
    ensures pos <= cut <= limit
    decreases limit - pos
  {
    var e := EndOf(f, pos, limit);
    if k == 0 || e == 0 then pos else CutAt(f, e, limit, k - 1)
  }

  lemma SameBytes(f: seq<Byte>, start: nat, limit: nat, buf: seq<Byte>, p: nat, e: nat)
    requires IsRead(f, start, limit, buf) && p <= e <= |buf|
    ensures buf[p..e] == f[start + p..start + e]
  {
  }

  lemma CutBuffer(buf: seq<Byte>, p: nat, e: nat)
    requires p <= |buf| && e == EndOf(buf, p, |buf|) != 0
    ensures LinesFrom(buf, p) == [buf[p..e]] + LinesFrom(buf, e)
  {
  }

  lemma CutFile(f: seq<Byte>, pos: nat, limit: nat, e: nat)
    requires pos <= limit <= |f| && e == EndOf(f, pos, limit) != 0
    ensures FileLines(f, pos, limit) == [f[pos..e]] + FileLines(f, e, limit)
  {
  }

  lemma SameCut(buf: seq<Byte>, p: nat, e: nat, f: seq<Byte>, pos: nat, limit: nat, end: nat)
    requires p <= |buf| && e == EndOf(buf, p, |buf|) != 0
    requires pos <= limit <= |f| && end == EndOf(f, pos, limit) != 0
    requires buf[p..e] == f[pos..end] && LinesFrom(buf, e) == FileLines(f, end, limit)
    ensures LinesFrom(buf, p) == FileLines(f, pos, limit)
  {
    CutBuffer(buf, p, e);
    CutFile(f, pos, limit, end);
  }

  /** What is read into a buffer has the lines of the file. */
  lemma {:induction false} BufferIsFile(f: seq<Byte>, start: nat, limit: nat, buf: seq<Byte>, p: nat)
    requires IsRead(f, start, limit, buf) && p <= |buf|
    ensures LinesFrom(buf, p) == FileLines(f, start + p, limit)
    decreases |buf| - p
  {
    EndOfShifted(f, start, limit, buf, p);
    var e := EndOf(buf, p, |buf|);
    if e != 0 {
      BufferIsFile(f, start, limit, buf, e);
      SameBytes(f, start, limit, buf, p, e);
      SameCut(buf, p, e, f, start + p, limit, start + e);
    }
  }

  lemma {:induction false} BufferEnd(f: seq<Byte>, start: nat, limit: nat, buf: seq<Byte>, p: nat)
    requires IsRead(f, start, limit, buf) && p <= |buf|
    ensures start + LastEnd(buf, p) == CutAt(f, start + p, limit, |FileLines(f, start + p, limit)|)
    decreases |buf| - p
  {
    EndOfShifted(f, start, limit, buf, p);
    var e := EndOf(buf, p, |buf|);
    if e != 0 { BufferEnd(f, start, limit, buf, e); }
  }

  lemma {:induction false} NthLine(f: seq<Byte>, pos: nat, limit: nat, k: nat)
    requires pos <= limit <= |f| && k < |FileLines(f, pos, limit)|
    ensures var (a, b) := (CutAt(f, pos, limit, k), CutAt(f, pos, limit, k + 1));
            b != 0 && b == EndOf(f, a, limit) && FileLines(f, pos, limit)[k] == f[a..b]
    decreases limit - pos
  {
    var e := EndOf(f, pos, limit);
    if k > 0 { NthLine(f, e, limit, k - 1); }
  }

  lemma {:induction false} NoLineAfter(f: seq<Byte>, pos: nat, limit: nat)
    requires pos <= limit <= |f|
    ensures EndOf(f, CutAt(f, pos, limit, |FileLines(f, pos, limit)|), limit) == 0
    decreases limit - pos
  {
    var e := EndOf(f, pos, limit);
    if e != 0 { NoLineAfter(f, e, limit); }
  }

  // ---------------------------------------------------------------------------
  // The steps of a batch.
  // ---------------------------------------------------------------------------

  /** Hand over one line for each of `saves`, which say whether the save after it works. */
  function HandOver(f: seq<Byte>, inode: nat, st: State, saves: seq<bool>): State {
    if saves == [] then st
    else
      var last := |saves| - 1;
      Apply(f, inode, Apply(f, inode, HandOver(f, inode, st, saves[..last]), Next), Save(saves[last]))
  }

  /** Where the first `k` lines start. */
  function Starts(f: seq<Byte>, pos: nat, limit: nat, k: nat): (starts: seq<nat>)
    requires pos <= limit <= |f|
    ensures |starts| == k && forall i :: 0 <= i < k ==> starts[i] == CutAt(f, pos, limit, i)
  {
    if k == 0 then [] else Starts(f, pos, limit, k - 1) + [CutAt(f, pos, limit, k - 1)]
  }

  /** The lines handed over are the first `k`, and the offset is the tally after them. */
  predicate IsMidway(f: seq<Byte>, st: State, pos: nat, limit: nat, k: nat, mid: State)
    requires pos <= limit <= |f| && k <= |FileLines(f, pos, limit)|
  {
    && mid.phase == Batch(CutAt(f, pos, limit, k), limit)
    && mid.mem == st.mem.(offset := Tally(st.mem.offset, FileLines(f, pos, limit), k))
    && mid.emitted == st.emitted + Starts(f, pos, limit, k)
  }

  lemma MidwayNext(f: seq<Byte>, inode: nat, st: State, pos: nat, limit: nat, k: nat, mid: State, save: bool)
    requires pos <= limit <= |f| && k < |FileLines(f, pos, limit)| && IsMidway(f, st, pos, limit, k, mid)
    ensures IsMidway(f, st, pos, limit, k + 1, Apply(f, inode, Apply(f, inode, mid, Next), Save(save)))
  {
    NthLine(f, pos, limit, k);
    assert st.emitted + Starts(f, pos, limit, k) + [CutAt(f, pos, limit, k)] == st.emitted + Starts(f, pos, limit, k + 1);
  }

  lemma {:induction false} Midway(f: seq<Byte>, inode: nat, st: State, pos: nat, limit: nat, saves: seq<bool>)
    requires st.phase == Batch(pos, limit) && pos <= limit <= |f| && |saves| <= |FileLines(f, pos, limit)|
    ensures IsMidway(f, st, pos, limit, |saves|, HandOver(f, inode, st, saves))
    decreases |saves|
  {
    if saves == [] {
      assert st.emitted + Starts(f, pos, limit, 0) == st.emitted;
    } else {
      var k := |saves| - 1;
      Midway(f, inode, st, pos, limit, saves[..k]);
      MidwayNext(f, inode, st, pos, limit, k, HandOver(f, inode, st, saves[..k]), saves[k]);
    }
  }

  /** The text of the line that starts at `p`. */
  function TextAt(f: seq<Byte>, p: nat, limit: nat): seq<Byte>
    requires p <= limit <= |f|
  {
    f[p..if EndOf(f, p, limit) == 0 then p else EndOf(f, p, limit)]
  }

  /** After any number of lines of a batch, the offset in memory is the reader's tally. */
  lemma TallyInMemory(
    f: seq<Byte>, inode: nat, st: State, pos: nat, limit: nat, buf: seq<Byte>, saves: seq<bool>)
    requires st.phase == Batch(pos, limit) && IsRead(f, pos, limit, buf)
    requires |saves| <= |LinesFrom(buf, 0)|
    ensures HandOver(f, inode, st, saves).mem.offset == Tally(st.mem.offset, LinesFrom(buf, 0), |saves|)
  {
    BufferIsFile(f, pos, limit, buf, 0);
    Midway(f, inode, st, pos, limit, saves);
  }

  /** Whatever the saves do, the lines emitted by a whole batch are those that the reader cut out of
      what it read, in order, and the offset is then just past the last of them. */
  lemma BatchEmits(
    f: seq<Byte>, inode: nat, st: State, pos: nat, limit: nat, buf: seq<Byte>, saves: seq<bool>)
    requires st.phase == Batch(pos, limit) && IsRead(f, pos, limit, buf)
    requires |saves| == |LinesFrom(buf, 0)|
    ensures var after := Apply(f, inode, HandOver(f, inode, st, saves), Next);
            && after.phase.Idle? && after.mem.offset == pos + LastEnd(buf, 0)
            && after.emitted == st.emitted + Starts(f, pos, limit, |saves|)
    ensures forall k :: 0 <= k < |saves| ==> TextAt(f, CutAt(f, pos, limit, k), limit) == LinesFrom(buf, 0)[k]
  {
    BufferIsFile(f, pos, limit, buf, 0);
    BufferEnd(f, pos, limit, buf, 0);
    Midway(f, inode, st, pos, limit, saves);
    NoLineAfter(f, pos, limit);
    forall k | 0 <= k < |saves|
      ensures TextAt(f, CutAt(f, pos, limit, k), limit) == FileLines(f, pos, limit)[k]
    {
      NthLine(f, pos, limit, k);
    }
  }
}
