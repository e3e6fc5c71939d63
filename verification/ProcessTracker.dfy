/** The bounded pid tracker: an ordered map, oldest entry first, that forgets the least recently
    used entry when it is over its size. */
module ProcessTracker {
  import opened Options

  datatype ProcessRecord = ProcessRecord(image: Option<string>, user: Option<string>, startedAt: int)

  type Pid = int

  /** An `OrderedDict`: the keys in order and what they map to. */
  datatype Cache = Cache(order: seq<Pid>, records: map<Pid, ProcessRecord>)

  const EMPTY := Cache([], map[])

  datatype Kind = Created | Exited

  datatype Event = Event(
    kind: Kind, occurredAt: int, pid: Pid, ppid: Option<Pid>, user: Option<string>, image: Option<string>,
    parentImage: Option<string>)

  // ---------------------------------------------------------------------------
  // The ordered map.
  // ---------------------------------------------------------------------------

  predicate Distinct(s: seq<Pid>) {
    forall i, j :: 0 <= i < j < |s| ==> s[i] != s[j]
  }

  ghost predicate Valid(c: Cache) {
    Distinct(c.order) && forall p :: p in c.records <==> p in c.order
  }

  /** Every key but `pid`, in order. */
  function Without(s: seq<Pid>, pid: Pid): seq<Pid> {
    if s == [] then []
    else Without(s[..|s| - 1], pid) + if s[|s| - 1] == pid then [] else [s[|s| - 1]]
  }

  /** The key goes to the recent end, if it is there. */
  function Touch(c: Cache, pid: Pid): Cache {
    if pid in c.records then c.(order := Without(c.order, pid) + [pid]) else c
  }

  function Put(c: Cache, pid: Pid, r: ProcessRecord): Cache {
    Cache(Without(c.order, pid) + [pid], c.records[pid := r])
  }

  function Pop(c: Cache, pid: Pid): Cache {
    Cache(Without(c.order, pid), c.records - {pid})
  }

  /** Forget the oldest entries until the size is kept; forget nothing without a size. */
  function Evict(c: Cache, size: Option<nat>): Cache
    decreases |c.order|
  {
    if size.Some? && |c.order| > size.value
    then Evict(Cache(c.order[1..], c.records - {c.order[0]}), size)
    else c
  }

  // ---------------------------------------------------------------------------
  // The two operations, for a tracker of the given size.
  // ---------------------------------------------------------------------------

  function Recorded(c: Cache, ev: Event, size: Option<nat>): Cache {
    var touched := if ev.ppid.Some? then Touch(c, ev.ppid.value) else c;
    Evict(Put(touched, ev.pid, ProcessRecord(ev.image, ev.user, ev.occurredAt)), size)
  }

  function Enriched(c: Cache, ev: Event): Event {
    if ev.ppid.Some? && ev.ppid.value in c.records && ev.parentImage.None?
    then ev.(parentImage := c.records[ev.ppid.value].image)
    else ev
  }

  function Resolved(c: Cache, ev: Event): Option<Event> {
    if ev.pid !in c.records then None
    else
      var r := c.records[ev.pid];
      Some(ev.(image := if ev.image.None? then r.image else ev.image,
               user := if ev.user.None? then r.user else ev.user))
  }

  /** The cache after one event of either kind. */
  function Step(c: Cache, ev: Event, size: Option<nat>): Cache {
    match ev.kind
    case Created => Recorded(c, ev, size)
    case Exited => Pop(c, ev.pid)
  }

  function Run(events: seq<Event>, size: Option<nat>): Cache {
    if events == [] then EMPTY else Step(Run(events[..|events| - 1], size), events[|events| - 1], size)
  }

  class TrackedProcesses {
    var order: seq<Pid>
    var records: map<Pid, ProcessRecord>
    const maxSize: nat

    constructor (maxSize: nat)
      ensures View() == EMPTY && this.maxSize == maxSize
    {
      order, records := [], map[];
      this.maxSize := maxSize;
    }

    function View(): Cache
      reads this
    {
      Cache(order, records)
    }

    /** `None` is the error raised for an event of the other kind. */
    method Record(ev: Event) returns (r: Option<Event>)
      modifies this
      ensures ev.kind == Created ==>
                View() == Recorded(old(View()), ev, Some(maxSize)) && r == Some(Enriched(old(View()), ev))
      ensures ev.kind != Created ==> View() == old(View()) && r == None
    {
      if ev.kind != Created {
        return None;
      }
      var event := ev;
      if ev.ppid.Some? {
        var ppid := ev.ppid.value;
        if ppid in records {
          if event.parentImage.None? {
            event := event.(parentImage := records[ppid].image);
          }
          order := Without(order, ppid) + [ppid];
        }
      }
      records := records[ev.pid := ProcessRecord(ev.image, ev.user, ev.occurredAt)];
      order := Without(order, ev.pid) + [ev.pid];
      ghost var full := View();
      while |order| > maxSize
        invariant Evict(View(), Some(maxSize)) == Evict(full, Some(maxSize))
        decreases |order|
      {
        records := records - {order[0]};
        order := order[1..];
      }
      return Some(event);
    }

    method ResolveExit(ev: Event) returns (r: Option<Event>)
      modifies this
      ensures ev.kind == Exited ==> View() == Pop(old(View()), ev.pid) && r == Resolved(old(View()), ev)
      ensures ev.kind != Exited ==> View() == old(View()) && r == None
    {
      if ev.kind != Exited {
        return None;
      }
      var record := if ev.pid in records then Some(records[ev.pid]) else None;
      order, records := Without(order, ev.pid), records - {ev.pid};
      if record.None? {
        return None;
      }
      var event := ev;
      if event.image.None? {
        event := event.(image := record.value.image);
      }
      if event.user.None? {
        event := event.(user := record.value.user);
      }
      return Some(event);
    }
  }
}
