/** The event bus: one subscriber that fans each message out to the bounded queues of its clients
    and drops a client whose queue is full. */
module EventBus {
  import opened Options

  type Message = string

  const QUEUE_MAX: nat := 256

  // ---------------------------------------------------------------------------
  // Whole runs.
  // ---------------------------------------------------------------------------

  /** A client: what it has read, what waits in its queue, the number of messages consumed before
      it registered, and, once it is no longer registered, the number consumed by then. */
  datatype Client = Client(read: seq<Message>, queued: seq<Message>, since: nat, until: Option<nat>)

  /** The clients ever registered and every message consumed. */
  datatype State = State(clients: map<nat, Client>, consumed: seq<Message>)

  datatype Step = DoRegister(id: nat) | DoUnregister(id: nat) | DoConsume(data: Message) | DoRead(id: nat)

  /** One message for one client. */
  function Deliver(c: Client, data: Message, n: nat): Client {
    if c.until.Some? then c
    else if |c.queued| < QUEUE_MAX then c.(queued := c.queued + [data])
    else c.(until := Some(n))
  }

  function Apply(st: State, step: Step): State {
    match step
    case DoRegister(id) =>
      if id in st.clients then st else st.(clients := st.clients[id := Client([], [], |st.consumed|, None)])
    case DoUnregister(id) =>
      if id in st.clients && st.clients[id].until.None?
      then st.(clients := st.clients[id := st.clients[id].(until := Some(|st.consumed|))])
      else st
    case DoConsume(data) =>
      State(map id | id in st.clients :: Deliver(st.clients[id], data, |st.consumed|), st.consumed + [data])
    case DoRead(id) =>
      if id in st.clients && st.clients[id].queued != [] then
        var c := st.clients[id];
        st.(clients := st.clients[id := c.(read := c.read + [c.queued[0]], queued := c.queued[1..])])
      else st
  }

  function Run(steps: seq<Step>): State {
    if steps == [] then State(map[], []) else Apply(Run(steps[..|steps| - 1]), steps[|steps| - 1])
  }

  /** The client has read or queued exactly the messages consumed while it was registered. */
  predicate GapFree(c: Client, consumed: seq<Message>) {
    var end := if c.until.Some? then c.until.value else |consumed|;
    && c.since <= end <= |consumed|
    && c.read + c.queued == consumed[c.since..end]
    && |c.queued| <= 256
  }

  lemma DeliverKeeps(c: Client, consumed: seq<Message>, data: Message)
    requires GapFree(c, consumed)
    ensures GapFree(Deliver(c, data, |consumed|), consumed + [data])
  {
    SliceGrows(consumed, data, c.since, if c.until.Some? then c.until.value else |consumed|);
    assert c.read + (c.queued + [data]) == c.read + c.queued + [data];
  }

  lemma SliceGrows(s: seq<Message>, m: Message, a: nat, b: nat)
    requires a <= b <= |s|
    ensures (s + [m])[a..b] == s[a..b]
    ensures (s + [m])[a..|s| + 1] == s[a..|s|] + [m]
  {
  }

  lemma ReadKeeps(c: Client, consumed: seq<Message>)
    requires GapFree(c, consumed) && c.queued != []
    ensures GapFree(c.(read := c.read + [c.queued[0]], queued := c.queued[1..]), consumed)
  {
    assert c.read + [c.queued[0]] + c.queued[1..] == c.read + c.queued;
  }

  predicate AllGapFree(st: State) {
    forall id :: id in st.clients ==> GapFree(st.clients[id], st.consumed)
  }

  lemma StepKeeps(st: State, step: Step)
    requires AllGapFree(st)
    ensures AllGapFree(Apply(st, step))
  {
    var after := Apply(st, step);
    forall id | id in after.clients ensures GapFree(after.clients[id], after.consumed) {
      match step
      case DoRegister(x) => assert st.consumed[|st.consumed|..] == [];
      case DoUnregister(_) =>
      case DoConsume(data) => DeliverKeeps(st.clients[id], st.consumed, data);
      case DoRead(x) => if id == x && st.clients[x].queued != [] { ReadKeeps(st.clients[x], st.consumed); }
    }
  }

  /** In every run, a registered client has everything consumed since it registered, in order and
      without a gap; one that was dropped or left has a prefix of it; no queue exceeds its bound. */
  lemma {:induction false} RunGapFree(steps: seq<Step>)
    ensures AllGapFree(Run(steps))
  {
    if steps != [] {
      RunGapFree(steps[..|steps| - 1]);
      StepKeeps(Run(steps[..|steps| - 1]), steps[|steps| - 1]);
    }
  }

  lemma RunOne(steps: seq<Step>, step: Step)
    ensures Run(steps + [step]) == Apply(Run(steps), step)
  {
    assert (steps + [step])[..|steps|] == steps;
  }

  /** Messages consumed since the client registered that it has not read. */
  function Behind(c: Client, consumed: seq<Message>): int {
    |consumed| - c.since - |c.read|
  }

  /** Step `n` of the run is a message that finds the client registered and 256 messages behind. */
  predicate FallsBehind(steps: seq<Step>, n: nat, id: nat)
    requires n < |steps|
  {
    var st := Run(steps[..n]);
    && steps[n].DoConsume? && id in st.clients && st.clients[id].until.None?
    && Behind(st.clients[id], st.consumed) == 256
  }

  /** The client ever registered, and it is no longer. */
  predicate IsGone(st: State, id: nat) {
    id in st.clients && st.clients[id].until.Some?
  }

  lemma StepGone(st: State, step: Step, id: nat)
    requires AllGapFree(st) && step != DoUnregister(id)
    ensures IsGone(Apply(st, step), id) <==>
            IsGone(st, id)
            || (step.DoConsume? && id in st.clients && st.clients[id].until.None?
                && Behind(st.clients[id], st.consumed) == 256)
  {
    if id in st.clients && st.clients[id].until.None? {
      var c := st.clients[id];
      assert |c.read + c.queued| == |st.consumed| - c.since;
    }
  }

  /** In every run a client that does not leave is dropped if and only if some message found it 256
      messages behind what was consumed since it registered. */
  lemma {:induction false} DroppedIffBehind(steps: seq<Step>, id: nat)
    requires DoUnregister(id) !in steps
    ensures IsGone(Run(steps), id) <==> exists n :: 0 <= n < |steps| && FallsBehind(steps, n, id)
  {
    if steps != [] {
      var last := |steps| - 1;
      var front := steps[..last];
      assert forall x :: x in front ==> x in steps;
      DroppedIffBehind(front, id);
      RunGapFree(front);
      StepGone(Run(front), steps[last], id);
      assert forall n :: 0 <= n < last ==> steps[..n] == front[..n];
      assert forall n :: 0 <= n < last ==> (FallsBehind(steps, n, id) <==> FallsBehind(front, n, id));
      assert FallsBehind(steps, last, id) || !FallsBehind(steps, last, id);
    }
  }

  // ---------------------------------------------------------------------------
  // The bus.
  // ---------------------------------------------------------------------------

  class ClientQueue {
    var items: seq<Message>
    ghost const id: nat

    constructor (ghost id: nat)
      ensures items == [] && this.id == id
    {
      items := [];
      this.id := id;
    }
  }

  ghost predicate HasQueue(all: set<ClientQueue>, id: nat) {
    exists q :: q in all && q.id == id
  }

  class Bus {
    var queues: set<ClientQueue>
    ghost var steps: seq<Step>
    ghost var state: State
    ghost var all: set<ClientQueue>

    /** The queues are those of the clients, and the set holds the registered ones. */
    ghost predicate Shows()
      reads this, all
    {
      && queues <= all
      && (forall q :: q in all ==> q.id in state.clients)
      && (forall id :: id in state.clients ==> HasQueue(all, id))
      && (forall p, q :: p in all && q in all && p.id == q.id ==> p == q)
      && (forall q :: q in all ==> q.items == state.clients[q.id].queued)
      && (forall q :: q in all ==> (q in queues <==> state.clients[q.id].until.None?))
    }

    /** The bus shows the state after the run so far. */
    ghost predicate Valid()
      reads this, all
    {
      state == Run(steps) && Shows()
    }

    constructor ()
      ensures Valid() && queues == {} && steps == []
    {
      queues, steps, state, all := {}, [], State(map[], []), {};
    }

    /** The run goes on by one step. */
    ghost method Advance(step: Step)
      requires state == Run(steps)
      modifies this`steps, this`state
      ensures state == Run(steps) == Apply(old(state), step) && steps == old(steps) + [step]
    {
      RunOne(steps, step);
      steps, state := steps + [step], Apply(state, step);
    }

    method Register(ghost id: nat) returns (q: ClientQueue)
      requires Valid() && id !in state.clients
      modifies this
      ensures Valid() && steps == old(steps) + [DoRegister(id)] && all == old(all) + {q}
      ensures fresh(q) && q.id == id && q.items == [] && queues == old(queues) + {q}
    {
      q := new ClientQueue(id);
      queues := queues + {q};
      all := all + {q};
      Advance(DoRegister(id));
      forall i | i in state.clients ensures HasQueue(all, i) {
        if i == id { assert q in all && q.id == i; } else { assert HasQueue(old(all), i); }
      }
    }

    method Unregister(q: ClientQueue)
      requires Valid() && q in all
      modifies this`queues, this`steps, this`state
      ensures Valid() && steps == old(steps) + [DoUnregister(q.id)]
      ensures queues == old(queues) - {q}
    {
      queues := queues - {q};
      Advance(DoUnregister(q.id));
    }

    /** The client takes the next message out of its queue. */
    method Get(q: ClientQueue) returns (data: Message)
      requires Valid() && q in all && q.items != []
      modifies this`steps, this`state, q
      ensures Valid() && steps == old(steps) + [DoRead(q.id)]
      ensures [data] + q.items == old(q.items)
    {
      data := q.items[0];
      q.items := q.items[1..];
      Advance(DoRead(q.id));
    }

    /** Put the message into every queue with room; the others are `dead`. */
    method FanOut(data: Message) returns (dead: set<ClientQueue>)
      modifies queues
      ensures dead == set q | q in queues && |old(q.items)| >= QUEUE_MAX
      ensures queues - dead == set q | q in queues && |old(q.items)| < QUEUE_MAX
      ensures forall q :: q in queues ==>
                q.items == if |old(q.items)| < QUEUE_MAX then old(q.items) + [data] else old(q.items)
    {
      dead := {};
      var todo := queues;
      while todo != {}
        invariant todo <= queues
        invariant dead == set q | q in queues - todo && |old(q.items)| >= QUEUE_MAX
        invariant forall q :: q in todo ==> q.items == old(q.items)
        invariant forall q :: q in queues - todo ==>
                    q.items == if |old(q.items)| < QUEUE_MAX then old(q.items) + [data] else old(q.items)
      {
        var q :| q in todo;
        if |q.items| < QUEUE_MAX {
          q.items := q.items + [data];
        } else {
          dead := dead + {q};
        }
        todo := todo - {q};
      }
    }

    /** One message from the subscription: every queue with room gets it, and the others are no
        longer registered. */
    method Consume(data: Message)
      requires Valid()
      modifies this`queues, this`steps, this`state, queues
      ensures Valid() && steps == old(steps) + [DoConsume(data)]
      ensures queues == set q | q in old(queues) && |old(q.items)| < QUEUE_MAX
    {
      var dead := FanOut(data);
      queues := queues - dead;
      Advance(DoConsume(data));
      ghost var (was, n) := (old(state).clients, |old(state).consumed|);
      forall q | q in all
        ensures q.items == state.clients[q.id].queued && (q in queues <==> state.clients[q.id].until.None?)
      {
        assert state.clients[q.id] == Deliver(was[q.id], data, n);
      }
    }
  }

  /** At any time, the queue of a client that is still registered holds exactly the messages
      consumed since it registered that it has not read. */
  lemma QueueIsTheRest(bus: Bus, q: ClientQueue)
    requires bus.Valid() && q in bus.queues
    ensures q.id in bus.state.clients
    ensures var (c, consumed) := (bus.state.clients[q.id], bus.state.consumed);
            && c.since + |c.read| <= |consumed|
            && c.read == consumed[c.since..c.since + |c.read|]
            && q.items == consumed[c.since + |c.read|..]
            && |q.items| <= 256
  {
    RunGapFree(bus.steps);
    RestOf(bus.state.clients[q.id], bus.state.consumed);
  }

  lemma RestOf(c: Client, consumed: seq<Message>)
    requires GapFree(c, consumed) && c.until.None?
    ensures c.since + |c.read| <= |consumed|
    ensures c.read == consumed[c.since..c.since + |c.read|] && c.queued == consumed[c.since + |c.read|..]
  {
    var all := consumed[c.since..|consumed|];
    assert |c.read + c.queued| == |all|;
    assert c.read == (c.read + c.queued)[..|c.read|] && c.queued == (c.read + c.queued)[|c.read|..];
    assert all[..|c.read|] == consumed[c.since..c.since + |c.read|] && all[|c.read|..] == consumed[c.since + |c.read|..];
  }
}
