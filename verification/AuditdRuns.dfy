/** Interleaving does not matter: what becomes of one event id depends on its own records. */
module AuditdRuns {
  import opened Options
  import opened Auditd

  predicate IsFor(line: Line, id: int) {
    line.Record? && line.id == id
  }

  /** The records of one event id, in order. */
  function Only(lines: seq<Line>, id: int): seq<Line> {
    if lines == [] then []
    else
      var rest := Only(lines[..|lines| - 1], id);
      if IsFor(lines[|lines| - 1], id) then rest + [lines[|lines| - 1]] else rest
  }

  function GroupsOf(groups: seq<Group>, id: int): seq<Group> {
    if groups == [] then []
    else
      var rest := GroupsOf(groups[..|groups| - 1], id);
      if groups[|groups| - 1].id == id then rest + [groups[|groups| - 1]] else rest
  }

  function EventsFor(events: seq<Event>, id: int): seq<Event> {
    if events == [] then []
    else
      var rest := EventsFor(events[..|events| - 1], id);
      if events[|events| - 1].eventId == id then rest + [events[|events| - 1]] else rest
  }

  /** The buffer of an id, with the time of its first record. */
  function Pending(st: State, id: int): (seq<Line>, Option<int>) {
    (if id in st.buf then st.buf[id] else [], if id in st.ts then Some(st.ts[id]) else None)
  }

  lemma GroupsAppend(groups: seq<Group>, g: Group, id: int)
    ensures GroupsOf(groups + [g], id) == GroupsOf(groups, id) + if g.id == id then [g] else []
  {
    assert (groups + [g])[..|groups|] == groups;
  }

  /** A record touches only its own id's buffer, and depends on nothing else. */
  lemma FeedLocal(a: State, b: State, line: Line, id: int)
    requires Pending(a, id) == Pending(b, id) && (id in a.buf <==> id in b.buf)
    ensures var ((a', g), (b', h)) := (FeedState(a, line), FeedState(b, line));
            && (IsFor(line, id) ==> Pending(a', id) == Pending(b', id) && (id in a'.buf <==> id in b'.buf) && g == h)
            && (!IsFor(line, id) ==> Pending(a', id) == Pending(a, id) && (id in a'.buf <==> id in a.buf)
                                     && (g.Some? ==> g.value.id != id))
  {
  }

  /** The buffer left for an id, and the groups flushed for it, are those of feeding its records
      alone. */
  lemma {:induction false} Interleaving(lines: seq<Line>, id: int)
    ensures var ((st, groups), (alone, own)) := (FeedAll(lines), FeedAll(Only(lines, id)));
            && Pending(st, id) == Pending(alone, id) && (id in st.buf <==> id in alone.buf)
            && GroupsOf(groups, id) == GroupsOf(own, id)
  {
    if lines != [] {
      var front, last := lines[..|lines| - 1], lines[|lines| - 1];
      Interleaving(front, id);
      var ((st, groups), (alone, own)) := (FeedAll(front), FeedAll(Only(front, id)));
      FeedLocal(st, alone, last, id);
      var g := FeedState(st, last).1;
      if g.Some? { GroupsAppend(groups, g.value, id); }
      if IsFor(last, id) {
        if g.Some? { GroupsAppend(own, g.value, id); }
      }
    }
  }

  lemma EventsForAppend(events: seq<Event>, ev: Option<Event>, id: int)
    ensures EventsFor(events + (if ev.Some? then [ev.value] else []), id) ==
            EventsFor(events, id) + if ev.Some? && ev.value.eventId == id then [ev.value] else []
  {
    if ev.Some? {
      assert (events + [ev.value])[..|events|] == events;
    } else {
      assert events + [] == events;
    }
  }

  lemma {:induction false} EventsOfGroups(groups: seq<Group>, id: int)
    ensures EventsFor(EventsOf(groups), id) == EventsOf(GroupsOf(groups, id))
  {
    if groups != [] {
      var front, g := groups[..|groups| - 1], groups[|groups| - 1];
      EventsOfGroups(front, id);
      EventsForAppend(EventsOf(front), Assembled(g.lines, g.id, g.ts), id);
    }
  }

  /** The events produced for one id are those of feeding its records alone. */
  lemma EventsIndependent(lines: seq<Line>, id: int)
    ensures EventsFor(EventsOf(FeedAll(lines).1), id) == EventsFor(EventsOf(FeedAll(Only(lines, id)).1), id)
  {
    Interleaving(lines, id);
    EventsOfGroups(FeedAll(lines).1, id);
    EventsOfGroups(FeedAll(Only(lines, id)).1, id);
  }

  // ---------------------------------------------------------------------------
  // Nothing is lost and every group is cut where it should be.
  // ---------------------------------------------------------------------------

  function Concat(groups: seq<Group>): seq<Line> {
    if groups == [] then [] else Concat(groups[..|groups| - 1]) + groups[|groups| - 1].lines
  }

  /** The records of one event still open: none of them ends it, and there is room for more. */
  predicate IsOpen(lines: seq<Line>, id: int) {
    && lines != [] && |lines| < 100
    && forall i :: 0 <= i < |lines| ==> IsFor(lines[i], id) && !lines[i].body.EndOfEvent?
  }

  /** A flushed group: its last record ends the event or fills the buffer, no earlier one does,
      and its time is that of its first record. */
  predicate IsCut(g: Group) {
    && g.lines != [] && |g.lines| <= 100
    && (forall i :: 0 <= i < |g.lines| ==> IsFor(g.lines[i], g.id))
    && (g.lines[|g.lines| - 1].body.EndOfEvent? || |g.lines| == 100)
    && (forall i :: 0 <= i < |g.lines| - 1 ==> !g.lines[i].body.EndOfEvent?)
    && g.ts == g.lines[0].ts
  }

  predicate Consistent(st: State) {
    && st.buf.Keys == st.ts.Keys
    && forall id :: id in st.buf ==> IsOpen(st.buf[id], id) && st.ts[id] == st.buf[id][0].ts
  }

  /** The two dictionaries keep the same keys, every buffer stays under the limit, and every
      flushed group is cut where its event ends or its buffer fills. */
  lemma {:induction false} BuffersBounded(lines: seq<Line>)
    ensures var (st, groups) := FeedAll(lines);
            Consistent(st) && forall i :: 0 <= i < |groups| ==> IsCut(groups[i])
  {
    if lines != [] {
      BuffersBounded(lines[..|lines| - 1]);
    }
  }

  /** The groups flushed for an id, followed by its buffer, are exactly its records. */
  lemma {:induction false} RecordsConserved(lines: seq<Line>, id: int)
    ensures var (st, groups) := FeedAll(lines);
            Concat(GroupsOf(groups, id)) + Pending(st, id).0 == Only(lines, id)
  {
    if lines != [] {
      var front, last := lines[..|lines| - 1], lines[|lines| - 1];
      RecordsConserved(front, id);
      var (st, groups) := FeedAll(front);
      RecordConserved(st, groups, last, id, Only(front, id));
    }
  }

  lemma RecordConserved(st: State, groups: seq<Group>, line: Line, id: int, own: seq<Line>)
    requires Concat(GroupsOf(groups, id)) + Pending(st, id).0 == own
    ensures var (st', g) := FeedState(st, line);
            Concat(GroupsOf(if g.Some? then groups + [g.value] else groups, id)) + Pending(st', id).0 ==
            own + if IsFor(line, id) then [line] else []
  {
    var (st', g) := FeedState(st, line);
    if g.Some? { GroupsAppend(groups, g.value, id); }
    if IsFor(line, id) { OwnRecordConserved(st, GroupsOf(groups, id), line, id); } else { FeedLocal(st, st, line, id); }
  }

  lemma OwnRecordConserved(st: State, own: seq<Group>, line: Line, id: int)
    requires IsFor(line, id)
    ensures var (st', g) := FeedState(st, line);
            Concat(if g.Some? then own + [g.value] else own) + Pending(st', id).0 ==
            Concat(own) + Pending(st, id).0 + [line]
  {
    var (st', g) := FeedState(st, line);
  }

  // ---------------------------------------------------------------------------
  // From what happened to the event, through any stream.
  // ---------------------------------------------------------------------------

  /** The records of one event, the last of which ends it, no more than a hundred. */
  predicate IsWhole(own: seq<Line>, id: int) {
    && own != [] && |own| <= 100 && (forall i :: 0 <= i < |own| ==> IsFor(own[i], id))
    && own[|own| - 1].body.EndOfEvent? && (forall i :: 0 <= i < |own| - 1 ==> !own[i].body.EndOfEvent?)
  }

  function OpenState(own: seq<Line>, id: int): State
    requires own != [] && own[0].Record?
  {
    State(map[id := own], map[id := own[0].ts])
  }

  lemma OneMore(own: seq<Line>, line: Line, id: int)
    requires own != [] && own[0].Record? && IsFor(line, id)
    ensures FeedState(OpenState(own, id), line) ==
            if line.body.EndOfEvent? || |own| + 1 >= 100 then (EMPTY, Some(Group(id, own[0].ts, own + [line])))
            else (OpenState(own + [line], id), None)
  {
    assert map[id := own] - {id} == map[] && map[id := own[0].ts] - {id} == map[];
    assert map[id := own][id := own + [line]] == map[id := own + [line]];
    assert map[id := own[0].ts][id := own[0].ts] == map[id := own[0].ts];
  }

  lemma FeedOneMore(front: seq<Line>, last: Line)
    ensures FeedAll(front + [last]) ==
            var ((st, groups), (st', g)) := (FeedAll(front), FeedState(FeedAll(front).0, last));
            (st', if g.Some? then groups + [g.value] else groups)
  {
    assert (front + [last])[..|front|] == front;
  }

  lemma {:induction false} StillOpen(own: seq<Line>, id: int, n: nat)
    requires IsWhole(own, id) && 0 < n < |own|
    ensures FeedAll(own[..n]) == (OpenState(own[..n], id), [])
  {
    assert own[..n - 1] + [own[n - 1]] == own[..n];
    FeedOneMore(own[..n - 1], own[n - 1]);
    if n > 1 {
      StillOpen(own, id, n - 1);
      OneMore(own[..n - 1], own[n - 1], id);
    } else {
      assert own[..0] == [] && own[..1] == [own[0]];
      assert EMPTY.buf[id := [own[0]]] == map[id := [own[0]]] && EMPTY.ts[id := own[0].ts] == map[id := own[0].ts];
    }
  }

  lemma OneGroup(own: seq<Line>, id: int)
    requires IsWhole(own, id)
    ensures FeedAll(own).1 == [Group(id, own[0].ts, own)]
  {
    var n := |own| - 1;
    assert own[..n] + [own[n]] == own;
    FeedOneMore(own[..n], own[n]);
    if n > 0 {
      StillOpen(own, id, n);
      OneMore(own[..n], own[n], id);
    } else {
      assert own[..0] == [];
    }
  }

  /** However the records of other events and noise are mixed in: one event comes out for the id, and
      it reports what happened. */
  lemma StreamReports(lines: seq<Line>, id: int, h: Happening)
    requires IsWhole(Only(lines, id), id) && Recorded(Only(lines, id), h)
    ensures var events := EventsFor(EventsOf(FeedAll(lines).1), id);
            |events| == 1 && Reports(events[0], h, id, Only(lines, id)[0].ts, Only(lines, id))
  {
    var own := Only(lines, id);
    EventsIndependent(lines, id);
    OneGroup(own, id);
    RecordsReported(own, h, id, own[0].ts);
    var ev := Assembled(own, id, own[0].ts).value;
    assert [Group(id, own[0].ts, own)][..0] == [];
    assert EventsOf([Group(id, own[0].ts, own)]) == [] + [ev];
    assert [ev][..0] == [];
  }
}
