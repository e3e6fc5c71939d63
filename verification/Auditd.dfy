/** Reassembling auditd records into events: records of many kernel events arrive interleaved,
    and each event id has its own buffer. */
module Auditd {
  import opened Options
  import opened Text

  /** The fields that the regular expressions find in a record body. */
  datatype Body =
    | Syscall(number: Option<int>, pid: Option<int>, ppid: Option<int>, uid: Option<int>, exit: Option<int>,
              exe: Option<string>)
    | Execve(argc: Option<nat>, args: seq<(nat, string)>)
    | Path(item0: Option<string>)
    | Proctitle(text: Option<string>)
    | EndOfEvent
    | Other

  /** A line as read: one without the audit header, or a record. */
  datatype Line = Noise | Record(id: int, ts: int, body: Body)

  datatype Kind = ProcessCreated | ProcessExited

  datatype Event = Event(
    kind: Kind, occurredAt: int, pid: int, ppid: Option<int>, uid: Option<int>, image: Option<string>,
    cmdline: Option<string>, exitCode: Option<int>, eventId: int, rawLines: seq<Line>)

  const EXECVE := 59
  const EXIT_GROUP := 231
  const MAX_BUFFER: nat := 100

  // ---------------------------------------------------------------------------
  // One event's records put together.
  // ---------------------------------------------------------------------------

  /** The last record of the group that `p` picks. */
  ghost predicate IsLast(lines: seq<Line>, p: Body -> bool, i: int) {
    0 <= i < |lines| && lines[i].Record? && p(lines[i].body)
    && forall j :: i < j < |lines| ==> !(lines[j].Record? && p(lines[j].body))
  }

  ghost predicate NoneSuch(lines: seq<Line>, p: Body -> bool) {
    forall j :: 0 <= j < |lines| ==> !(lines[j].Record? && p(lines[j].body))
  }

  /** `pick` is the last body of a kind, when there is one. */
  ghost predicate PicksLast(lines: seq<Line>, p: Body -> bool, pick: Option<Body>) {
    match pick
    case None => NoneSuch(lines, p)
    case Some(b) => exists i :: IsLast(lines, p, i) && lines[i].body == b
  }

  /** `pick` is the first body of a kind, when there is one. */
  ghost predicate PicksFirst(lines: seq<Line>, p: Body -> bool, pick: Option<Body>) {
    match pick
    case None => NoneSuch(lines, p)
    case Some(b) =>
      exists i :: 0 <= i < |lines| && lines[i].Record? && p(lines[i].body) && lines[i].body == b
                  && forall j :: 0 <= j < i ==> !(lines[j].Record? && p(lines[j].body))
  }

  function IsSyscall(): Body -> bool { (b: Body) => b.Syscall? }
  function IsExecve(): Body -> bool { (b: Body) => b.Execve? }
  function IsNamedPath(): Body -> bool { (b: Body) => b.Path? && b.item0.Some? }
  function IsProctitle(): Body -> bool { (b: Body) => b.Proctitle? }

  /** The last argument written for index `i`, or "" for none. */
  function Arg(args: seq<(nat, string)>, i: nat): string {
    if args == [] then ""
    else if args[|args| - 1].0 == i then args[|args| - 1].1
    else Arg(args[..|args| - 1], i)
  }

  /** One more than the highest argument index. */
  function Limit(args: seq<(nat, string)>): nat {
    if args == [] then 0
    else
      var n := Limit(args[..|args| - 1]);
      if args[|args| - 1].0 + 1 > n then args[|args| - 1].0 + 1 else n
  }

  /** `_decode_execve`: the arguments in index order, gaps empty, as many as `argc` says or, without
      it, up to the highest index. */
  function DecodeExecve(argc: Option<nat>, args: seq<(nat, string)>): Option<string> {
    if args == [] then None
    else
      var n := if argc.Some? then argc.value else Limit(args);
      Some(JoinWith(seq(n, i requires 0 <= i < n => Arg(args, i)), ' '))
  }

  function EventOf(
    syscall: Option<Body>, execve: Option<Body>, path: Option<Body>, title: Option<Body>,
    lines: seq<Line>, id: int, ts: int): Option<Event>
    requires syscall.Some? ==> syscall.value.Syscall?
    requires execve.Some? ==> execve.value.Execve?
    requires path.Some? ==> path.value.Path?
    requires title.Some? ==> title.value.Proctitle?
  {
    if syscall.None? then None
    else
      var s := syscall.value;
      if s.number != Some(EXECVE) && s.number != Some(EXIT_GROUP) then None
      else if s.pid.None? then None
      else
        var image := if s.exe.None? && path.Some? then path.value.item0 else s.exe;
        var fromArgs := if execve.Some? then DecodeExecve(execve.value.argc, execve.value.args) else None;
        var cmdline := if fromArgs.None? && title.Some? then title.value.text else fromArgs;
        var kind := if s.number == Some(EXECVE) then ProcessCreated else ProcessExited;
        Some(Event(kind, ts, s.pid.value, s.ppid, s.uid, image, cmdline,
                   if kind == ProcessExited then s.exit else None, id, lines))
  }

  /** The four bodies that `_assemble` keeps after one pass over the lines. */
  datatype Picks = Picks(syscall: Option<Body>, execve: Option<Body>, path: Option<Body>, title: Option<Body>)

  function Pick(k: Picks, line: Line): Picks {
    match line
    case Noise => k
    case Record(_, _, b) =>
      match b
      case Syscall(_, _, _, _, _, _) => k.(syscall := Some(b))
      case Execve(_, _) => k.(execve := Some(b))
      case Path(item0) => if k.path.None? && item0.Some? then k.(path := Some(b)) else k
      case Proctitle(_) => k.(title := Some(b))
      case _ => k
  }

  function PickAll(lines: seq<Line>): (k: Picks)
    ensures k.syscall.Some? ==> k.syscall.value.Syscall?
    ensures k.execve.Some? ==> k.execve.value.Execve?
    ensures k.path.Some? ==> k.path.value.Path?
    ensures k.title.Some? ==> k.title.value.Proctitle?
  {
    if lines == [] then Picks(None, None, None, None)
    else Pick(PickAll(lines[..|lines| - 1]), lines[|lines| - 1])
  }

  function Assembled(lines: seq<Line>, id: int, ts: int): Option<Event> {
    var k := PickAll(lines);
    EventOf(k.syscall, k.execve, k.path, k.title, lines, id, ts)
  }

  /** `_assemble`: one pass that overwrites the syscall, execve and proctitle bodies and keeps
      the first path that names item 0. */
  method Assemble(lines: seq<Line>, id: int, ts: int) returns (ev: Option<Event>)
    ensures ev == Assembled(lines, id, ts)
    ensures ev.None? <==> forall i :: IsLast(lines, IsSyscall(), i) ==> !IsProcessCall(lines[i].body)
    ensures forall h: Happening :: Recorded(lines, h) ==> ev.Some? && Reports(ev.value, h, id, ts, lines)
  {
    var syscall, execve, path, title := None, None, None, None;
    assert lines[..0] == [];
    for i := 0 to |lines|
      invariant Picks(syscall, execve, path, title) == PickAll(lines[..i])
    {
      assert lines[..i + 1][..i] == lines[..i];
      var line := lines[i];
      if line.Record? {
        match line.body
        case Syscall(_, _, _, _, _, _) => syscall := Some(line.body);
        case Execve(_, _) => execve := Some(line.body);
        case Path(item0) =>
          if path.None? && item0.Some? {
            path := Some(line.body);
          }
        case Proctitle(_) => title := Some(line.body);
        case _ =>
      }
    }
    assert lines[..|lines|] == lines;
    ev := EventOf(syscall, execve, path, title, lines, id, ts);
    NoEventIff(lines, id, ts);
    forall h: Happening | Recorded(lines, h) ensures ev.Some? && Reports(ev.value, h, id, ts, lines) {
      RecordsReported(lines, h, id, ts);
    }
  }

  lemma {:induction false} PicksAreLast(lines: seq<Line>)
    ensures var k := PickAll(lines);
            && PicksLast(lines, IsSyscall(), k.syscall) && PicksLast(lines, IsExecve(), k.execve)
            && PicksLast(lines, IsProctitle(), k.title) && PicksFirst(lines, IsNamedPath(), k.path)
  {
    if lines != [] {
      var front, last := lines[..|lines| - 1], lines[|lines| - 1];
      PicksAreLast(front);
      assert front + [last] == lines;
      LastStep(front, last, IsSyscall(), PickAll(front).syscall, PickAll(lines).syscall);
      LastStep(front, last, IsExecve(), PickAll(front).execve, PickAll(lines).execve);
      LastStep(front, last, IsProctitle(), PickAll(front).title, PickAll(lines).title);
      FirstStep(front, last, IsNamedPath(), PickAll(front).path, PickAll(lines).path);
    }
  }

  lemma LastStep(front: seq<Line>, last: Line, p: Body -> bool, was: Option<Body>, now: Option<Body>)
    requires PicksLast(front, p, was)
    requires now == if last.Record? && p(last.body) then Some(last.body) else was
    ensures PicksLast(front + [last], p, now)
  {
    var lines := front + [last];
    if last.Record? && p(last.body) {
      assert IsLast(lines, p, |front|);
    } else if was.Some? {
      var i :| IsLast(front, p, i) && front[i].body == was.value;
      assert IsLast(lines, p, i) && lines[i].body == was.value;
    }
  }

  lemma FirstStep(front: seq<Line>, last: Line, p: Body -> bool, was: Option<Body>, now: Option<Body>)
    requires PicksFirst(front, p, was)
    requires now == if was.None? && last.Record? && p(last.body) then Some(last.body) else was
    ensures PicksFirst(front + [last], p, now)
  {
    var lines := front + [last];
    if was.Some? {
      var i :| 0 <= i < |front| && front[i].Record? && p(front[i].body) && front[i].body == was.value
               && forall j :: 0 <= j < i ==> !(front[j].Record? && p(front[j].body));
      assert lines[i] == front[i] && forall j :: 0 <= j < i ==> lines[j] == front[j];
    } else if now.Some? {
      assert lines[|front|] == last && forall j :: 0 <= j < |front| ==> lines[j] == front[j];
    }
  }

  // ---------------------------------------------------------------------------
  // What happened, from its records back to the event.
  // ---------------------------------------------------------------------------

  /** A process that started or ended, as the kernel knows it. */
  datatype Happening = Happening(
    ended: bool, pid: int, ppid: Option<int>, uid: Option<int>, code: Option<int>, exe: Option<string>,
    args: Option<seq<string>>, path: Option<string>, title: Option<string>)

  function Numbered(args: seq<string>): (numbered: seq<(nat, string)>)
    ensures |numbered| == |args|
  {
    seq(|args|, i requires 0 <= i < |args| => (i as nat, args[i]))
  }

  /** The record bodies that the kernel writes for it: call 59 is execve, 231 is exit_group. */
  predicate WrittenFor(b: Body, h: Happening) {
    match b
    case Syscall(_, _, _, _, _, _) =>
      b == Syscall(Some(if h.ended then 231 else 59), Some(h.pid), h.ppid, h.uid, h.code, h.exe)
    case Execve(argc, args) =>
      h.args.Some? && args == Numbered(h.args.value) && (argc.Some? ==> argc.value == |args|)
    case Path(item0) => item0.Some? ==> item0 == h.path
    case Proctitle(text) => h.title.Some? && text == h.title
    case _ => true
  }

  ghost predicate Has(lines: seq<Line>, p: Body -> bool) {
    exists i :: 0 <= i < |lines| && lines[i].Record? && p(lines[i].body)
  }

  /** The lines hold its records, in any order, once or more, with noise and other records between. */
  ghost predicate Recorded(lines: seq<Line>, h: Happening) {
    && (forall i :: 0 <= i < |lines| && lines[i].Record? ==> WrittenFor(lines[i].body, h))
    && Has(lines, IsSyscall())
    && (h.args.Some? ==> Has(lines, IsExecve()))
    && (h.path.Some? ==> Has(lines, IsNamedPath()))
    && (h.title.Some? ==> Has(lines, IsProctitle()))
  }

  /** The event says what happened: the image is the executable or else the path, the command line the
      arguments with blanks between or else the title, and only an end has an exit code. */
  predicate Reports(ev: Event, h: Happening, id: int, ts: int, lines: seq<Line>) {
    && ev.kind == (if h.ended then ProcessExited else ProcessCreated)
    && ev.exitCode == (if h.ended then h.code else None)
    && ev.pid == h.pid && ev.ppid == h.ppid && ev.uid == h.uid
    && ev.image == (if h.exe.Some? then h.exe else h.path)
    && ev.cmdline == (if h.args.Some? && h.args.value != [] then Some(JoinWith(h.args.value, ' ')) else h.title)
    && ev.eventId == id && ev.occurredAt == ts && ev.rawLines == lines
  }

  /** A system call that starts or ends a process, of a known pid. */
  predicate IsProcessCall(b: Body) {
    b.Syscall? && b.pid.Some? && (b.number == Some(59) || b.number == Some(231))
  }

  /** `w` is the last argument written for index `i`, or empty for none. */
  ghost predicate IsWord(args: seq<(nat, string)>, i: nat, w: string) {
    || (w == "" && forall j :: 0 <= j < |args| ==> args[j].0 != i)
    || exists j :: 0 <= j < |args| && args[j] == (i, w) && forall k :: j < k < |args| ==> args[k].0 != i
  }

  lemma {:induction false} ArgIsWord(args: seq<(nat, string)>, i: nat)
    ensures IsWord(args, i, Arg(args, i))
  {
    if args != [] {
      var n := |args| - 1;
      if args[n].0 == i {
        assert args[n] == (i, Arg(args, i));
      } else {
        ArgIsWord(args[..n], i);
        if j :| 0 <= j < n && args[..n][j] == (i, Arg(args, i)) && forall k :: j < k < n ==> args[..n][k].0 != i {
          assert args[j] == (i, Arg(args, i)) && forall k :: j < k < n ==> args[k].0 == args[..n][k].0;
        } else {
          assert forall j :: 0 <= j < n ==> args[j].0 == args[..n][j].0;
        }
      }
    }
  }

  lemma {:induction false} LimitIsNext(args: seq<(nat, string)>)
    requires args != []
    ensures forall j :: 0 <= j < |args| ==> args[j].0 < Limit(args)
    ensures exists j :: 0 <= j < |args| && args[j].0 + 1 == Limit(args)
  {
    var n := |args| - 1;
    if n > 0 {
      LimitIsNext(args[..n]);
      var j :| 0 <= j < n && args[..n][j].0 + 1 == Limit(args[..n]);
      assert args[j].0 == args[..n][j].0;
      assert forall k :: 0 <= k < n ==> args[k].0 == args[..n][k].0;
    }
    if args[n].0 + 1 == Limit(args) { assert args[n].0 + 1 == Limit(args); }
  }

  /** One word for each index below the count that the record gives or, without one, below the highest
      index and it. */
  ghost predicate AreWords(argc: Option<nat>, args: seq<(nat, string)>, words: seq<string>) {
    && (forall i :: 0 <= i < |words| ==> IsWord(args, i, words[i]))
    && match argc
       case Some(n) => |words| == n
       case None => (forall j :: 0 <= j < |args| ==> args[j].0 < |words|)
                    && exists j :: 0 <= j < |args| && args[j].0 + 1 == |words|
  }

  /** Whatever arguments the record has, in any order, repeated or missing: the command line is their
      words with blanks between. */
  lemma CommandLine(argc: Option<nat>, args: seq<(nat, string)>) returns (words: seq<string>)
    requires args != []
    ensures AreWords(argc, args, words) && DecodeExecve(argc, args) == Some(JoinWith(words, ' '))
  {
    LimitIsNext(args);
    var n := if argc.Some? then argc.value else Limit(args);
    words := seq(n, i requires 0 <= i < n => Arg(args, i));
    forall i | 0 <= i < n ensures IsWord(args, i, words[i]) {
      ArgIsWord(args, i);
    }
  }

  lemma NumberedWord(args: seq<string>, i: nat, w: string)
    requires i < |args| && IsWord(Numbered(args), i, w)
    ensures w == args[i]
  {
    assert Numbered(args)[i].0 == i;
  }

  lemma NumberedLine(argc: Option<nat>, args: seq<string>)
    requires args != [] && (argc.Some? ==> argc.value == |args|)
    ensures DecodeExecve(argc, Numbered(args)) == Some(JoinWith(args, ' '))
  {
    var words := CommandLine(argc, Numbered(args));
    if argc.None? { assert Numbered(args)[|args| - 1].0 < |words|; }
    forall i | 0 <= i < |words| ensures words[i] == args[i] {
      NumberedWord(args, i, words[i]);
    }
    assert words == args;
  }

  lemma PickedIsWritten(lines: seq<Line>, h: Happening)
    requires Recorded(lines, h)
    ensures var k := PickAll(lines);
            && k.syscall == Some(Syscall(Some(if h.ended then 231 else 59), Some(h.pid), h.ppid, h.uid, h.code, h.exe))
            && (k.execve.Some? <==> h.args.Some?) && (k.execve.Some? ==> WrittenFor(k.execve.value, h))
            && k.path == (if h.path.Some? then Some(Path(h.path)) else None)
            && k.title == (if h.title.Some? then Some(Proctitle(h.title)) else None)
  {
    PicksAreLast(lines);
  }

  /** A round trip: from what happened to its records, in any order and mixed with others, and back. */
  lemma RecordsReported(lines: seq<Line>, h: Happening, id: int, ts: int)
    requires Recorded(lines, h)
    ensures Assembled(lines, id, ts).Some? && Reports(Assembled(lines, id, ts).value, h, id, ts, lines)
  {
    PickedIsWritten(lines, h);
    if h.args.Some? && h.args.value != [] { NumberedLine(PickAll(lines).execve.value.argc, h.args.value); }
  }

  /** There is no event exactly when the last system call, if there is one, is not of a process. */
  lemma NoEventIff(lines: seq<Line>, id: int, ts: int)
    ensures Assembled(lines, id, ts).None? <==>
            forall i :: IsLast(lines, IsSyscall(), i) ==> !IsProcessCall(lines[i].body)
  {
    PicksAreLast(lines);
    var k := PickAll(lines);
    if k.syscall.Some? {
      var n :| IsLast(lines, IsSyscall(), n) && lines[n].body == k.syscall.value;
      assert forall i :: IsLast(lines, IsSyscall(), i) ==> i == n;
    }
  }

  /** Arguments without blanks can be read off the command line. */
  lemma ArgumentsBack(h: Happening, ev: Event, id: int, ts: int, lines: seq<Line>)
    requires Reports(ev, h, id, ts, lines) && h.args.Some? && h.args.value != [] && FreeOf(h.args.value, ' ')
    ensures ev.cmdline.Some? && SplitAt(ev.cmdline.value, ' ') == h.args.value
  {
    JoinSplits(h.args.value, ' ');
  }

  // ---------------------------------------------------------------------------
  // The buffers.
  // ---------------------------------------------------------------------------

  /** A flushed group of records. */
  datatype Group = Group(id: int, ts: int, lines: seq<Line>)

  datatype State = State(buf: map<int, seq<Line>>, ts: map<int, int>)

  const EMPTY := State(map[], map[])

  /** One record: it joins its id's buffer, which is flushed at the end of the event or when full. */
  function FeedState(st: State, line: Line): (State, Option<Group>) {
    match line
    case Noise => (st, None)
    case Record(id, ts, body) =>
      var lines := (if id in st.buf then st.buf[id] else []) + [line];
      var first := if id in st.buf && id in st.ts then st.ts[id] else ts;
      if body.EndOfEvent? || |lines| >= MAX_BUFFER
      then (State(st.buf - {id}, st.ts - {id}), Some(Group(id, first, lines)))
      else (State(st.buf[id := lines], st.ts[id := first]), None)
  }

  function FeedAll(lines: seq<Line>): (r: (State, seq<Group>)) {
    if lines == [] then (EMPTY, [])
    else
      var (st, groups) := FeedAll(lines[..|lines| - 1]);
      var (st', g) := FeedState(st, lines[|lines| - 1]);
      (st', if g.Some? then groups + [g.value] else groups)
  }

  lemma SomeElement<T>(s: set<T>) returns (x: T)
    requires s != {}
    ensures x in s
  {
    x :| x in s;
  }

  /** Assemble every buffer, in whatever order. */
  method DrainAll(buf: map<int, seq<Line>>, ts: map<int, int>) returns (events: seq<Event>, ghost drained: seq<Group>)
    requires buf.Keys == ts.Keys
    ensures events == EventsOf(drained)
    ensures forall g :: g in drained ==> g.id in buf && g == Group(g.id, ts[g.id], buf[g.id])
    ensures forall id :: id in buf ==> Group(id, ts[id], buf[id]) in drained
    ensures |drained| == |buf|
  {
    events, drained := [], [];
    var todo := buf.Keys;
    while todo != {}
      invariant todo <= buf.Keys
      invariant events == EventsOf(drained)
      invariant forall g :: g in drained ==> g.id in buf && g == Group(g.id, ts[g.id], buf[g.id])
      invariant forall id :: id in buf && id !in todo ==> Group(id, ts[id], buf[id]) in drained
      invariant |drained| + |todo| == |buf|
    {
      ghost var some := SomeElement(todo);
      var id :| id in todo;
      var ev := Assemble(buf[id], id, ts[id]);
      ghost var g := Group(id, ts[id], buf[id]);
      assert (drained + [g])[..|drained|] == drained;
      if ev.Some? {
        events := events + [ev.value];
      }
      drained := drained + [g];
      todo := todo - {id};
    }
  }

  /** Nothing written under a key shows once it is removed or written again. */
  lemma Overwritten<T>(m: map<int, T>, id: int, was: T, now: T)
    ensures m[id := was][id := now] == m[id := now] && m[id := now] - {id} == m - {id}
  {
  }

  class AuditdParser {
    var buf: map<int, seq<Line>>
    var ts: map<int, int>

    constructor ()
      ensures View() == EMPTY
    {
      buf, ts := map[], map[];
    }

    function View(): State
      reads this
    {
      State(buf, ts)
    }

    /** The events of one line: that of the group it flushes, if the group makes one. */
    method Feed(line: Line) returns (events: seq<Event>)
      requires buf.Keys == ts.Keys
      modifies this
      ensures buf.Keys == ts.Keys
      ensures var (st, g) := FeedState(old(View()), line);
              View() == st && events == EventsOf(if g.Some? then [g.value] else [])
    {
      if line.Noise? {
        return [];
      }
      var id := line.id;
      if id !in buf {
        buf := buf[id := []];
        ts := ts[id := line.ts];
      }
      buf := buf[id := buf[id] + [line]];
      Overwritten(old(buf), id, [], buf[id]);
      Overwritten(old(ts), id, ts[id], ts[id]);
      assert buf == old(buf)[id := buf[id]] && ts == old(ts)[id := ts[id]];
      if line.body.EndOfEvent? || |buf[id]| >= MAX_BUFFER {
        events := Take(id);
        assert buf == old(buf) - {id} && ts == old(ts) - {id};
        return;
      }
      return [];
    }

    /** Pop the buffer of one id and assemble it. */
    method Take(id: int) returns (events: seq<Event>)
      requires id in buf && id in ts
      modifies this
      ensures buf == old(buf) - {id} && ts == old(ts) - {id}
      ensures events == EventsOf([Group(id, old(ts)[id], old(buf)[id])])
    {
      var lines, first := buf[id], ts[id];
      buf, ts := buf - {id}, ts - {id};
      var ev := Assemble(lines, id, first);
      events := if ev.Some? then [ev.value] else [];
    }

    /** Drain every buffer, in some order, at the end of the input. */
    method Flush() returns (events: seq<Event>, ghost drained: seq<Group>)
      requires buf.Keys == ts.Keys
      modifies this
      ensures View() == EMPTY
      ensures events == EventsOf(drained)
      ensures forall g :: g in drained ==> g.id in old(buf) && g == Group(g.id, old(ts)[g.id], old(buf)[g.id])
      ensures forall id :: id in old(buf) ==> Group(id, old(ts)[id], old(buf)[id]) in drained
      ensures |drained| == |old(buf)|
    {
      events, drained := DrainAll(buf, ts);
      buf, ts := map[], map[];
    }
  }

  /** The events that the flushed groups make, in order. */
  function EventsOf(groups: seq<Group>): seq<Event> {
    if groups == [] then []
    else
      var g := groups[|groups| - 1];
      var ev := Assembled(g.lines, g.id, g.ts);
      EventsOf(groups[..|groups| - 1]) + if ev.Some? then [ev.value] else []
  }
}
