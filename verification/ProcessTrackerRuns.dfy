/** The bounded tracker against one that never forgets. */
module ProcessTrackerRuns {
  import opened Options
  import opened ProcessTracker

  /** The keys that are in `ks`, in order. */
  function Within(s: seq<Pid>, ks: map<Pid, ProcessRecord>): seq<Pid> {
    if s == [] then []
    else Within(s[..|s| - 1], ks) + if s[|s| - 1] in ks then [s[|s| - 1]] else []
  }

  /** The small tracker `b` is what is left of `u` when the pids that `b` lacks are taken out:
      the same records in the same order. */
  ghost predicate Refines(b: Cache, u: Cache) {
    && Valid(b) && Valid(u)
    && b.order == Within(u.order, b.records)
    && forall p :: p in b.records ==> p in u.records && u.records[p] == b.records[p]
  }

  // ---------------------------------------------------------------------------
  // Laws of ordered keys.
  // ---------------------------------------------------------------------------

  lemma WithinAppend(s: seq<Pid>, p: Pid, ks: map<Pid, ProcessRecord>)
    ensures Within(s + [p], ks) == Within(s, ks) + if p in ks then [p] else []
  {
    assert (s + [p])[..|s|] == s;
  }

  lemma WithoutAppend(s: seq<Pid>, p: Pid, pid: Pid)
    ensures Without(s + [p], pid) == Without(s, pid) + if p == pid then [] else [p]
  {
    assert (s + [p])[..|s|] == s;
  }

  lemma {:induction false} WithoutKeys(s: seq<Pid>, pid: Pid)
    ensures forall p :: p in Without(s, pid) <==> p in s && p != pid
    ensures |Without(s, pid)| <= |s|
  {
    if s != [] {
      WithoutKeys(s[..|s| - 1], pid);
      assert s == s[..|s| - 1] + [s[|s| - 1]];
    }
  }

  lemma InFront(s: seq<Pid>)
    requires Distinct(s) && s != []
    ensures s[|s| - 1] !in s[..|s| - 1]
  {
  }

  lemma {:induction false} WithoutDistinct(s: seq<Pid>, pid: Pid)
    requires Distinct(s)
    ensures Distinct(Without(s, pid))
  {
    if s != [] {
      var front, last := s[..|s| - 1], s[|s| - 1];
      WithoutDistinct(front, pid);
      WithoutKeys(front, pid);
      InFront(s);
      var w := Without(front, pid);
      forall i | 0 <= i < |w| ensures w[i] != last {
        assert w[i] in w;
      }
    }
  }

  lemma {:induction false} WithinWithout(s: seq<Pid>, pid: Pid, ks: map<Pid, ProcessRecord>)
    ensures Within(Without(s, pid), ks) == Without(Within(s, ks), pid)
  {
    if s != [] {
      var front, last := s[..|s| - 1], s[|s| - 1];
      WithinWithout(front, pid, ks);
      WithinAppend(Without(front, pid), last, ks);
      WithoutAppend(Within(front, ks), last, pid);
      assert Without(front, pid) + [] == Without(front, pid);
      assert Within(front, ks) + [] == Within(front, ks);
    }
  }

  /** Two key sets that agree on `s` pick the same keys from it. */
  lemma {:induction false} WithinSame(s: seq<Pid>, ks: map<Pid, ProcessRecord>, ks': map<Pid, ProcessRecord>)
    requires forall p :: p in s ==> (p in ks <==> p in ks')
    ensures Within(s, ks) == Within(s, ks')
  {
    if s != [] {
      var front, last := s[..|s| - 1], s[|s| - 1];
      assert s == front + [last] && last in s;
      WithinSame(front, ks, ks');
      assert last in ks <==> last in ks';
    }
  }

  lemma {:induction false} WithoutAbsent(s: seq<Pid>, pid: Pid)
    requires pid !in s
    ensures Without(s, pid) == s
  {
    if s != [] {
      assert s == s[..|s| - 1] + [s[|s| - 1]];
      WithoutAbsent(s[..|s| - 1], pid);
    }
  }

  /** Dropping the key that is oldest within `ks` drops the head. */
  lemma {:induction false} WithoutHead(s: seq<Pid>)
    requires s != [] && Distinct(s)
    ensures Without(s, s[0]) == s[1..]
  {
    if |s| > 1 {
      var front, last := s[..|s| - 1], s[|s| - 1];
      WithoutHead(front);
      assert s[1..] == front[1..] + [last];
    }
  }

  // ---------------------------------------------------------------------------
  // Each operation keeps the refinement.
  // ---------------------------------------------------------------------------

  lemma PopValid(c: Cache, pid: Pid)
    requires Valid(c)
    ensures Valid(Pop(c, pid))
  {
    WithoutKeys(c.order, pid);
    WithoutDistinct(c.order, pid);
  }

  lemma PopRefines(b: Cache, u: Cache, pid: Pid)
    requires Refines(b, u)
    ensures Refines(Pop(b, pid), Pop(u, pid))
  {
    PopValid(b, pid);
    PopValid(u, pid);
    WithinWithout(u.order, pid, b.records);
    WithoutKeys(u.order, pid);
    WithinSame(Without(u.order, pid), b.records, b.records - {pid});
  }

  lemma AppendValid(c: Cache, pid: Pid, r: ProcessRecord)
    requires Valid(c) && pid !in c.order
    ensures Valid(Cache(c.order + [pid], c.records[pid := r]))
  {
  }

  /** A fresh key at the recent end of both. */
  lemma AppendRefines(b: Cache, u: Cache, pid: Pid, r: ProcessRecord)
    requires Refines(b, u) && pid !in u.order
    ensures Refines(Cache(b.order + [pid], b.records[pid := r]), Cache(u.order + [pid], u.records[pid := r]))
  {
    AppendValid(b, pid, r);
    AppendValid(u, pid, r);
    WithinAppend(u.order, pid, b.records[pid := r]);
    WithinSame(u.order, b.records, b.records[pid := r]);
  }

  lemma PutRefines(b: Cache, u: Cache, pid: Pid, r: ProcessRecord)
    requires Refines(b, u)
    ensures Refines(Put(b, pid, r), Put(u, pid, r))
  {
    PopRefines(b, u, pid);
    WithoutKeys(u.order, pid);
    AppendRefines(Pop(b, pid), Pop(u, pid), pid, r);
    PutBack(b.records, pid, r);
    PutBack(u.records, pid, r);
  }

  lemma PutBack(m: map<Pid, ProcessRecord>, pid: Pid, r: ProcessRecord)
    ensures (m - {pid})[pid := r] == m[pid := r]
  {
  }

  lemma TouchRefines(b: Cache, u: Cache, pid: Pid)
    requires Refines(b, u)
    ensures Refines(Touch(b, pid), Touch(u, pid))
  {
    if pid in b.records {
      PutRefines(b, u, pid, b.records[pid]);
      assert b.records[pid := b.records[pid]] == b.records && u.records[pid := u.records[pid]] == u.records;
    } else if pid in u.records {
      MoveUnseen(b, u, pid);
    }
  }

  /** Moving a key that the small tracker has already forgotten changes nothing for it. */
  lemma MoveUnseen(b: Cache, u: Cache, pid: Pid)
    requires Refines(b, u) && pid !in b.records && pid in u.records
    ensures Refines(b, Touch(u, pid))
  {
    PopValid(u, pid);
    WithoutKeys(u.order, pid);
    AppendValid(Pop(u, pid), pid, u.records[pid]);
    PutBack(u.records, pid, u.records[pid]);
    assert u.records[pid := u.records[pid]] == u.records;
    WithinAppend(Without(u.order, pid), pid, b.records);
    WithinWithout(u.order, pid, b.records);
    WithoutAbsent(b.order, pid);
  }

  lemma ForgetRefines(b: Cache, u: Cache)
    requires Refines(b, u) && b.order != []
    ensures Refines(Cache(b.order[1..], b.records - {b.order[0]}), u)
  {
    var pid := b.order[0];
    WithoutHead(b.order);
    PopValid(b, pid);
    WithinWithout(u.order, pid, b.records);
    WithinLess(u.order, pid, b.records);
  }

  lemma {:induction false} WithinLess(s: seq<Pid>, pid: Pid, ks: map<Pid, ProcessRecord>)
    ensures Within(s, ks - {pid}) == Without(Within(s, ks), pid)
  {
    if s != [] {
      var front, last := s[..|s| - 1], s[|s| - 1];
      WithinLess(front, pid, ks);
      WithoutAppend(Within(front, ks), last, pid);
      assert Within(front, ks) + [] == Within(front, ks);
    }
  }

  lemma {:induction false} EvictRefines(b: Cache, u: Cache, size: Option<nat>)
    requires Refines(b, u)
    ensures Refines(Evict(b, size), u)
    decreases |b.order|
  {
    if size.Some? && |b.order| > size.value {
      ForgetRefines(b, u);
      EvictRefines(Cache(b.order[1..], b.records - {b.order[0]}), u, size);
    }
  }

  lemma RecordRefines(b: Cache, u: Cache, ev: Event, size: Option<nat>)
    requires Refines(b, u)
    ensures Refines(Recorded(b, ev, size), Recorded(u, ev, None))
  {
    var r := ProcessRecord(ev.image, ev.user, ev.occurredAt);
    if ev.ppid.Some? {
      TouchRefines(b, u, ev.ppid.value);
      StoreRefines(Touch(b, ev.ppid.value), Touch(u, ev.ppid.value), ev.pid, r, size);
    } else {
      StoreRefines(b, u, ev.pid, r, size);
    }
  }

  lemma StoreRefines(b: Cache, u: Cache, pid: Pid, r: ProcessRecord, size: Option<nat>)
    requires Refines(b, u)
    ensures Refines(Evict(Put(b, pid, r), size), Evict(Put(u, pid, r), None))
  {
    PutRefines(b, u, pid, r);
    EvictRefines(Put(b, pid, r), Put(u, pid, r), size);
  }

  // ---------------------------------------------------------------------------
  // Whole runs.
  // ---------------------------------------------------------------------------

  lemma {:induction false} RunRefines(events: seq<Event>, size: Option<nat>)
    ensures Refines(Run(events, size), Run(events, None))
  {
    if events != [] {
      var front, ev := events[..|events| - 1], events[|events| - 1];
      RunRefines(front, size);
      match ev.kind
      case Created => RecordRefines(Run(front, size), Run(front, None), ev, size);
      case Exited => PopRefines(Run(front, size), Run(front, None), ev.pid);
    }
  }

  /** The creation of `pid` that no exit of it followed, if there is one: the newest. */
  function Alive(events: seq<Event>, pid: Pid): Option<Event> {
    if events == [] then None
    else
      var last := events[|events| - 1];
      if last.pid != pid then Alive(events[..|events| - 1], pid)
      else if last.kind == Created then Some(last) else None
  }

  /** The tracker that never evicts knows exactly the processes alive, each by its creation. */
  lemma {:induction false} UnboundedKnowsAlive(events: seq<Event>, pid: Pid)
    ensures var (u, alive) := (Run(events, None), Alive(events, pid));
            && (pid in u.records <==> alive.Some?)
            && (alive.Some? ==> u.records[pid] == ProcessRecord(alive.value.image, alive.value.user, alive.value.occurredAt))
  {
    if events != [] {
      UnboundedKnowsAlive(events[..|events| - 1], pid);
    }
  }

  /** After any run, an exit or a parent image that the bounded tracker resolves is the one that
      the unbounded tracker gives. */
  lemma AnswersAgree(events: seq<Event>, size: Option<nat>, ev: Event)
    ensures Resolved(Run(events, size), ev).Some? ==>
              Resolved(Run(events, None), ev) == Resolved(Run(events, size), ev)
    ensures ev.ppid.Some? && ev.ppid.value in Run(events, size).records ==>
              Enriched(Run(events, None), ev) == Enriched(Run(events, size), ev)
  {
    RunRefines(events, size);
    var b, u := Run(events, size), Run(events, None);
    assert forall p :: p in b.records ==> p in u.records && u.records[p] == b.records[p];
  }

  /** What the bounded tracker fills in at an exit is what the creation of that process said. */
  lemma ExitFromCreation(events: seq<Event>, size: Option<nat>, ev: Event)
    requires Resolved(Run(events, size), ev).Some?
    ensures var (alive, r) := (Alive(events, ev.pid), Resolved(Run(events, size), ev).value);
            && alive.Some?
            && r == ev.(image := if ev.image.None? then alive.value.image else ev.image,
                        user := if ev.user.None? then alive.value.user else ev.user)
  {
    AnswersAgree(events, size, ev);
    UnboundedKnowsAlive(events, ev.pid);
  }

  /** What is filled in at a creation is the image in the creation of its parent, if that is alive and
      known; nothing else of the event changes. */
  lemma ParentImageFromCreation(events: seq<Event>, size: Option<nat>, ev: Event)
    ensures var (r, known) := (Enriched(Run(events, size), ev),
                               ev.ppid.Some? && ev.ppid.value in Run(events, size).records);
            && r.(parentImage := ev.parentImage) == ev
            && (known ==> Alive(events, ev.ppid.value).Some?)
            && r.parentImage == if ev.parentImage.None? && known then Alive(events, ev.ppid.value).value.image
                                else ev.parentImage
  {
    RunRefines(events, size);
    if ev.ppid.Some? {
      UnboundedKnowsAlive(events, ev.ppid.value);
      var b, u := Run(events, size), Run(events, None);
      assert forall p :: p in b.records ==> p in u.records && u.records[p] == b.records[p];
    }
  }

  /** If the processes alive never outnumber the size, the two trackers are equal. */
  lemma {:induction false} NeverOverSize(events: seq<Event>, size: nat)
    requires forall n :: 0 <= n <= |events| ==> |Run(events[..n], None).order| <= size
    ensures Run(events, Some(size)) == Run(events, None)
  {
    assert events[..|events|] == events;
    if events != [] {
      var front := events[..|events| - 1];
      forall n | 0 <= n <= |front| ensures |Run(front[..n], None).order| <= size {
        assert front[..n] == events[..n];
      }
      NeverOverSize(front, size);
    }
  }

  lemma {:induction false} EvictSize(c: Cache, size: nat)
    ensures |Evict(c, Some(size)).order| <= size
    decreases |c.order|
  {
    if |c.order| > size { EvictSize(Cache(c.order[1..], c.records - {c.order[0]}), size); }
  }

  lemma {:induction false} SizeKept(events: seq<Event>, size: nat)
    ensures |Run(events, Some(size)).order| <= size
  {
    if events != [] {
      var front, ev := events[..|events| - 1], events[|events| - 1];
      SizeKept(front, size);
      match ev.kind
      case Created =>
        var c := Run(front, Some(size));
        var touched := if ev.ppid.Some? then Touch(c, ev.ppid.value) else c;
        EvictSize(Put(touched, ev.pid, ProcessRecord(ev.image, ev.user, ev.occurredAt)), size);
      case Exited => WithoutKeys(Run(front, Some(size)).order, ev.pid);
    }
  }

  /** The last entries outlive eviction, as many as the size allows. */
  lemma {:induction false} EvictKeepsRecent(c: Cache, size: nat, pid: Pid, k: nat)
    requires Valid(c) && 1 <= k <= size && k <= |c.order| && c.order[|c.order| - k] == pid
    ensures pid in Evict(c, Some(size)).records && Evict(c, Some(size)).records[pid] == c.records[pid]
    decreases |c.order|
  {
    if |c.order| > size {
      WithoutHead(c.order);
      PopValid(c, c.order[0]);
      EvictKeepsRecent(Cache(c.order[1..], c.records - {c.order[0]}), size, pid, k);
    }
  }

  /** With room for two, a known parent outlives the record of its child. */
  lemma ParentSurvives(events: seq<Event>, ev: Event, size: nat)
    requires size >= 2 && ev.ppid.Some? && ev.ppid.value != ev.pid
    requires ev.ppid.value in Run(events, Some(size)).records
    ensures var (c, ppid) := (Run(events, Some(size)), ev.ppid.value);
            var after := Recorded(c, ev, Some(size));
            ppid in after.records && after.records[ppid] == c.records[ppid] && ev.pid in after.records
  {
    RunRefines(events, Some(size));
    BothRecent(Run(events, Some(size)), ev.ppid.value, ev.pid, ProcessRecord(ev.image, ev.user, ev.occurredAt), size);
  }

  lemma PutValid(c: Cache, pid: Pid, r: ProcessRecord)
    requires Valid(c)
    ensures Valid(Put(c, pid, r))
  {
    PopValid(c, pid);
    WithoutKeys(c.order, pid);
    AppendValid(Pop(c, pid), pid, r);
    PutBack(c.records, pid, r);
  }

  /** The parent touched and the child stored are the two most recent entries. */
  lemma BothRecent(c: Cache, ppid: Pid, pid: Pid, r: ProcessRecord, size: nat)
    requires Valid(c) && ppid in c.records && ppid != pid && size >= 2
    ensures var after := Evict(Put(Touch(c, ppid), pid, r), Some(size));
            ppid in after.records && after.records[ppid] == c.records[ppid] && pid in after.records
  {
    PutValid(c, ppid, c.records[ppid]);
    assert c.records[ppid := c.records[ppid]] == c.records;
    var touched := Touch(c, ppid);
    PutValid(touched, pid, r);
    var full := Put(touched, pid, r);
    WithoutAppend(Without(c.order, ppid), ppid, pid);
    assert full.order == Without(Without(c.order, ppid), pid) + [ppid] + [pid];
    EvictKeepsRecent(full, size, ppid, 2);
    EvictKeepsRecent(full, size, pid, 1);
  }
}
