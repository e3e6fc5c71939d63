/** The event shipper: a bounded queue that sheds its oldest event, batches, and bounded retries. */
module Shipper {
  type Event = int

  // ---------------------------------------------------------------------------
  // One event: attempts and backoff.
  // ---------------------------------------------------------------------------

  datatype Response = NetworkError | Status(code: nat)

  const MAX_ATTEMPTS: nat := 5
  const MAX_BACKOFF: nat := 15

  predicate Retriable(r: Response) {
    r.NetworkError? || (r.code != 201 && !(400 <= r.code < 500))
  }

  /** Seconds slept after the `n`-th failed attempt. */
  function Backoff(n: nat): nat
    requires n >= 1
  {
    if n == 1 then 1 else if 2 * Backoff(n - 1) <= MAX_BACKOFF then 2 * Backoff(n - 1) else MAX_BACKOFF
  }

  function TotalBackoff(n: nat): nat {
    if n == 0 then 0 else TotalBackoff(n - 1) + Backoff(n)
  }

  /** Neither a success nor a client error. */
  predicate IsUndecided(r: Response) {
    r == NetworkError || (r.code != 201 && (r.code < 400 || r.code > 499))
  }

  /** The first `n` attempts are made, and none of them is decided. */
  predicate KeepsTrying(responses: nat -> Response, stopped: nat -> bool, n: nat) {
    forall a :: 1 <= a <= n ==> !stopped(a) && IsUndecided(responses(a))
  }

  /** Some attempt in reach is made and answered 201. */
  predicate Delivered(responses: nat -> Response, stopped: nat -> bool) {
    exists a :: 1 <= a <= 5 && KeepsTrying(responses, stopped, a - 1)
                && !stopped(a) && responses(a) == Status(201)
  }

  /** The posts from attempt `a` on, all before it having failed. */
  function PostsFrom(responses: nat -> Response, stopped: nat -> bool, a: nat): (n: nat)
    requires a <= MAX_ATTEMPTS + 1
    ensures n <= MAX_ATTEMPTS + 1 - a
    decreases MAX_ATTEMPTS + 1 - a
  {
    if a == MAX_ATTEMPTS + 1 || stopped(a) then 0
    else if Retriable(responses(a)) then 1 + PostsFrom(responses, stopped, a + 1)
    else 1
  }

  /** It slept after each attempt that is to be retried: all of them, if it made the last or was stopped,
      or all but the one that was decided. */
  predicate SleptRight(responses: nat -> Response, stopped: nat -> bool, posts: nat, slept: nat) {
    if KeepsTrying(responses, stopped, posts)
    then slept == TotalBackoff(posts) && (posts == MAX_ATTEMPTS || stopped(posts + 1))
    else posts >= 1 && KeepsTrying(responses, stopped, posts - 1) && !stopped(posts)
         && !IsUndecided(responses(posts)) && slept == TotalBackoff(posts - 1)
  }

  lemma {:induction false} PostsUpTo(responses: nat -> Response, stopped: nat -> bool, from: nat, a: nat)
    requires 1 <= from <= a <= MAX_ATTEMPTS + 1 && KeepsTrying(responses, stopped, a - 1)
    ensures PostsFrom(responses, stopped, from) == a - from + PostsFrom(responses, stopped, a)
    decreases a - from
  {
    if from < a {
      assert IsUndecided(responses(from));
      PostsUpTo(responses, stopped, from + 1, a);
    }
  }

  lemma NotDelivered(responses: nat -> Response, stopped: nat -> bool, a: nat)
    requires 1 <= a && KeepsTrying(responses, stopped, a - 1) && (a == 6 || stopped(a) || responses(a) != Status(201))
    requires a < 6 && !stopped(a) ==> !IsUndecided(responses(a))
    ensures !Delivered(responses, stopped)
  {
    forall d | 1 <= d <= 5 && responses(d) == Status(201) && d > a ensures !KeepsTrying(responses, stopped, d - 1) {
      assert stopped(a) || !IsUndecided(responses(a));
    }
  }

  /** It ends before attempt `a`: all before it are to be retried, and it is the sixth or is stopped. */
  lemma EndsBefore(responses: nat -> Response, stopped: nat -> bool, a: nat)
    requires 1 <= a <= 6 && KeepsTrying(responses, stopped, a - 1) && (a == 6 || stopped(a))
    ensures !Delivered(responses, stopped) && PostsFrom(responses, stopped, 1) == a - 1
    ensures SleptRight(responses, stopped, a - 1, TotalBackoff(a - 1))
  {
    NotDelivered(responses, stopped, a);
    PostsUpTo(responses, stopped, 1, a);
  }

  /** It ends with attempt `a`: all before it are to be retried, and it is decided. */
  lemma EndsWith(responses: nat -> Response, stopped: nat -> bool, a: nat)
    requires 1 <= a <= 5 && KeepsTrying(responses, stopped, a - 1) && !stopped(a) && !IsUndecided(responses(a))
    ensures Delivered(responses, stopped) <==> responses(a) == Status(201)
    ensures PostsFrom(responses, stopped, 1) == a
    ensures SleptRight(responses, stopped, a, TotalBackoff(a - 1))
  {
    if responses(a) != Status(201) { NotDelivered(responses, stopped, a); }
    PostsUpTo(responses, stopped, 1, a);
  }

  /** `_ship_one`: `responses(a)` answers attempt `a`, and `stopped(a)` says whether the agent was
      told to stop just before it. */
  method ShipOne(responses: nat -> Response, stopped: nat -> bool) returns (ok: bool, posts: nat, slept: nat)
    ensures posts <= 5 && slept <= 30
    ensures ok <==> Delivered(responses, stopped)
    ensures posts == PostsFrom(responses, stopped, 1)
    ensures SleptRight(responses, stopped, posts, slept)
  {
    ok, posts, slept := false, 0, 0;
    var backoff := 1;
    for attempt := 1 to MAX_ATTEMPTS + 1
      invariant posts == attempt - 1 && !ok
      invariant KeepsTrying(responses, stopped, posts)
      invariant backoff == Backoff(attempt) && slept == TotalBackoff(posts) <= 30
    {
      BackoffBounded();
      if stopped(attempt) {
        EndsBefore(responses, stopped, attempt);
        return;
      }
      posts := posts + 1;
      var response := responses(attempt);
      if response.Status? {
        if response.code == 201 {
          EndsWith(responses, stopped, attempt);
          ok := true;
          return;
        }
        if 400 <= response.code < 500 {
          EndsWith(responses, stopped, attempt);
          return;
        }
      }
      slept := slept + backoff;
      backoff := if backoff * 2 <= MAX_BACKOFF then backoff * 2 else MAX_BACKOFF;
    }
    EndsBefore(responses, stopped, 6);
  }

  /** Network and server errors are outlasted, as long as an answer of 201 comes within five attempts. */
  lemma OutlastsErrors(responses: nat -> Response, stopped: nat -> bool, a: nat)
    requires 1 <= a <= 5 && responses(a) == Status(201) && forall b :: 1 <= b <= a ==> !stopped(b)
    requires forall b :: 1 <= b < a ==> responses(b) == NetworkError || (responses(b).Status? && 500 <= responses(b).code)
    ensures Delivered(responses, stopped)
  {
  }

  /** A client error before any 201 ends it: no attempt is made after it, and the event is given up. */
  lemma {:induction false} ClientErrorEnds(responses: nat -> Response, stopped: nat -> bool, a: nat, from: nat)
    requires 1 <= from <= a <= 5 && responses(a).Status? && 400 <= responses(a).code < 500
    requires forall b :: 1 <= b < a ==> responses(b) != Status(201)
    ensures !Delivered(responses, stopped) && PostsFrom(responses, stopped, from) <= a + 1 - from
    decreases a - from
  {
    if from < a { ClientErrorEnds(responses, stopped, a, from + 1); }
    assert responses(a).code != 201;
  }

  lemma BackoffBounded()
    ensures forall n :: 0 <= n <= 5 ==> TotalBackoff(n) <= 30
    ensures TotalBackoff(5) == 30
  {
    assert Backoff(1) == 1 && Backoff(2) == 2 && Backoff(3) == 4 && Backoff(4) == 8 && Backoff(5) == 15;
    assert TotalBackoff(1) == 1 && TotalBackoff(2) == 3 && TotalBackoff(3) == 7 && TotalBackoff(4) == 15;
  }

  // ---------------------------------------------------------------------------
  // The queue and the counters.
  // ---------------------------------------------------------------------------

  /** What became of an event that left the queue. */
  datatype Fate = Dropped | Taken

  datatype Phase = Collecting | Shipping

  /** `batch` is in flight; `enqueued`, `removed` and `finished` are the history: every event ever
      offered, every event that left the queue, and every event shipped or given up. */
  datatype State = State(
    queue: seq<Event>, batch: seq<Event>, phase: Phase,
    shipped: nat, failed: nat, dropped: nat, posts: nat,
    enqueued: seq<Event>, removed: seq<(Event, Fate)>, finished: seq<Event>)

  const EMPTY := State([], [], Collecting, 0, 0, 0, 0, [], [], [])

  /** A queue size of zero or less means no bound. */
  predicate Full(queue: seq<Event>, queueMax: int) {
    queueMax > 0 && |queue| >= queueMax
  }

  function Offer(st: State, e: Event, queueMax: int): State {
    if Full(st.queue, queueMax) then
      st.(queue := st.queue[1..] + [e], dropped := st.dropped + 1,
          enqueued := st.enqueued + [e], removed := st.removed + [(st.queue[0], Dropped)])
    else st.(queue := st.queue + [e], enqueued := st.enqueued + [e])
  }

  datatype Step = Enqueue(e: Event) | Take | Close | Ship(responses: nat -> Response, stopped: nat -> bool)

  /** One step of the agent: a source enqueues; the run loop takes one more event into its batch,
      closes the batch, or finishes its next event. */
  function Apply(st: State, step: Step, queueMax: int, batchSize: nat): State {
    match step
    case Enqueue(e) => Offer(st, e, queueMax)
    case Take =>
      if st.phase.Collecting? && |st.batch| < batchSize && st.queue != [] then
        st.(batch := st.batch + [st.queue[0]], queue := st.queue[1..], removed := st.removed + [(st.queue[0], Taken)])
      else st
    case Close => if st.batch == [] then st.(phase := Collecting) else st.(phase := Shipping)
    case Ship(responses, stopped) =>
      if st.phase.Shipping? && st.batch != [] then
        var (rest, ok) := (st.batch[1..], Delivered(responses, stopped));
        st.(posts := st.posts + PostsFrom(responses, stopped, 1),
            batch := rest, phase := if rest == [] then Collecting else Shipping,
            shipped := st.shipped + (if ok then 1 else 0), failed := st.failed + (if ok then 0 else 1),
            finished := st.finished + [st.batch[0]])
      else st
  }

  function Run(steps: seq<Step>, queueMax: int, batchSize: nat): State {
    if steps == [] then EMPTY
    else Apply(Run(steps[..|steps| - 1], queueMax, batchSize), steps[|steps| - 1], queueMax, batchSize)
  }

  class Queue {
    var queue: seq<Event>
    var dropped: nat
    const queueMax: int

    ghost predicate Valid()
      reads this
    {
      queueMax > 0 ==> |queue| <= queueMax
    }

    constructor (queueMax: int)
      ensures Valid() && queue == [] && dropped == 0 && this.queueMax == queueMax
    {
      queue, dropped := [], 0;
      this.queueMax := queueMax;
    }

    /** `put_nowait`: false is the exception raised when there is no room. */
    method PutNowait(e: Event) returns (ok: bool)
      requires Valid()
      modifies this`queue
      ensures Valid()
      ensures ok == !Full(old(queue), queueMax)
      ensures queue == if ok then old(queue) + [e] else old(queue)
    {
      ok := !Full(queue, queueMax);
      if ok {
        queue := queue + [e];
      }
    }

    /** Never fails: a full queue gives up its oldest event. */
    method Enqueue(e: Event) returns (ok: bool)
      requires Valid()
      modifies this
      ensures Valid() && ok
      ensures forall st: State :: st.queue == old(queue) && st.dropped == old(dropped) ==>
                queue == Offer(st, e, queueMax).queue && dropped == Offer(st, e, queueMax).dropped
    {
      ok := PutNowait(e);
      if ok {
        return;
      }
      if queue != [] {
        queue := queue[1..];
        dropped := dropped + 1;
      }
      ok := PutNowait(e);
    }
  }

  // ---------------------------------------------------------------------------
  // Conservation.
  // ---------------------------------------------------------------------------

  function Events(removed: seq<(Event, Fate)>): seq<Event> {
    seq(|removed|, i requires 0 <= i < |removed| => removed[i].0)
  }

  function WithFate(removed: seq<(Event, Fate)>, fate: Fate): seq<Event> {
    if removed == [] then []
    else
      WithFate(removed[..|removed| - 1], fate)
      + if removed[|removed| - 1].1 == fate then [removed[|removed| - 1].0] else []
  }

  lemma WithFateAppend(removed: seq<(Event, Fate)>, r: (Event, Fate), fate: Fate)
    ensures WithFate(removed + [r], fate) == WithFate(removed, fate) + if r.1 == fate then [r.0] else []
  {
    assert (removed + [r])[..|removed|] == removed;
  }

  ghost predicate Conserved(st: State, queueMax: int, batchSize: nat) {
    && Events(st.removed) + st.queue == st.enqueued
    && WithFate(st.removed, Taken) == st.finished + st.batch
    && |WithFate(st.removed, Dropped)| == st.dropped
    && |st.finished| == st.shipped + st.failed
    && st.posts <= 5 * |st.finished|
    && |st.enqueued| == st.shipped + st.failed + st.dropped + |st.queue| + |st.batch|
    && (queueMax > 0 ==> |st.queue| <= queueMax)
    && |st.batch| <= batchSize
  }

  lemma EventsAppend(removed: seq<(Event, Fate)>, r: (Event, Fate))
    ensures Events(removed + [r]) == Events(removed) + [r.0]
  {
  }

  lemma RemoveHead(st: State, fate: Fate)
    requires st.queue != []
    ensures Events(st.removed + [(st.queue[0], fate)]) + st.queue[1..] == Events(st.removed) + st.queue
  {
    EventsAppend(st.removed, (st.queue[0], fate));
    assert st.queue == [st.queue[0]] + st.queue[1..];
  }

  lemma OfferConserves(st: State, e: Event, queueMax: int, batchSize: nat)
    requires Conserved(st, queueMax, batchSize)
    ensures Conserved(Offer(st, e, queueMax), queueMax, batchSize)
  {
    if Full(st.queue, queueMax) {
      RemoveHead(st, Dropped);
      WithFateAppend(st.removed, (st.queue[0], Dropped), Taken);
      WithFateAppend(st.removed, (st.queue[0], Dropped), Dropped);
      assert Events(st.removed + [(st.queue[0], Dropped)]) + (st.queue[1..] + [e])
          == Events(st.removed + [(st.queue[0], Dropped)]) + st.queue[1..] + [e];
    } else {
      assert Events(st.removed) + (st.queue + [e]) == Events(st.removed) + st.queue + [e];
    }
  }

  lemma TakeConserves(st: State, queueMax: int, batchSize: nat)
    requires Conserved(st, queueMax, batchSize)
    ensures Conserved(Apply(st, Take, queueMax, batchSize), queueMax, batchSize)
  {
    if st.phase.Collecting? && |st.batch| < batchSize && st.queue != [] {
      RemoveHead(st, Taken);
      WithFateAppend(st.removed, (st.queue[0], Taken), Taken);
      WithFateAppend(st.removed, (st.queue[0], Taken), Dropped);
      assert st.finished + (st.batch + [st.queue[0]]) == st.finished + st.batch + [st.queue[0]];
    }
  }

  lemma ShipConserves(
    st: State, responses: nat -> Response, stopped: nat -> bool, queueMax: int, batchSize: nat)
    requires Conserved(st, queueMax, batchSize)
    ensures Conserved(Apply(st, Ship(responses, stopped), queueMax, batchSize), queueMax, batchSize)
  {
    if st.phase.Shipping? && st.batch != [] {
      assert st.batch == [st.batch[0]] + st.batch[1..];
      assert st.finished + [st.batch[0]] + st.batch[1..] == st.finished + st.batch;
    }
  }

  /** For every interleaving: what left the queue, in order, followed by the queue, is everything
      enqueued; what was taken is finished in that order or still in flight; the counters add up;
      no more than five posts were made for each finished event; and the queue keeps its bound. */
  lemma {:induction false} RunConserves(steps: seq<Step>, queueMax: int, batchSize: nat)
    ensures Conserved(Run(steps, queueMax, batchSize), queueMax, batchSize)
  {
    if steps != [] {
      RunConserves(steps[..|steps| - 1], queueMax, batchSize);
      var st := Run(steps[..|steps| - 1], queueMax, batchSize);
      match steps[|steps| - 1]
      case Enqueue(e) => OfferConserves(st, e, queueMax, batchSize);
      case Take => TakeConserves(st, queueMax, batchSize);
      case Close =>
      case Ship(responses, stopped) => ShipConserves(st, responses, stopped, queueMax, batchSize);
    }
  }

  // ---------------------------------------------------------------------------
  // A batch gets done.
  // ---------------------------------------------------------------------------

  function RunOn(st: State, steps: seq<Step>, queueMax: int, batchSize: nat): State
    decreases |steps|
  {
    if steps == [] then st else RunOn(Apply(st, steps[0], queueMax, batchSize), steps[1..], queueMax, batchSize)
  }

  /** A batch being shipped is finished, in order, by as many steps as it has events, whatever the
      backend answers; then the next one is collected. */
  lemma {:induction false} BatchFinishes(st: State, ships: seq<Step>, queueMax: int, batchSize: nat)
    requires st.phase == (if st.batch == [] then Collecting else Shipping) && |ships| == |st.batch|
    requires forall i :: 0 <= i < |ships| ==> ships[i].Ship?
    ensures var after := RunOn(st, ships, queueMax, batchSize);
            && after.finished == st.finished + st.batch && after.batch == [] && after.phase == Collecting
            && after.queue == st.queue && after.shipped + after.failed == st.shipped + st.failed + |st.batch|
    decreases |ships|
  {
    if ships != [] {
      BatchFinishes(Apply(st, ships[0], queueMax, batchSize), ships[1..], queueMax, batchSize);
      assert st.batch == [st.batch[0]] + st.batch[1..];
    }
  }

  /** A batch that was closed before it was full is shipped as well. */
  lemma ClosedBatchFinishes(st: State, ships: seq<Step>, queueMax: int, batchSize: nat)
    requires |ships| == |st.batch| && forall i :: 0 <= i < |ships| ==> ships[i].Ship?
    ensures RunOn(Apply(st, Close, queueMax, batchSize), ships, queueMax, batchSize).finished == st.finished + st.batch
  {
    BatchFinishes(Apply(st, Close, queueMax, batchSize), ships, queueMax, batchSize);
  }
}
