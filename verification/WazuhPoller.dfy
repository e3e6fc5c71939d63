/** One batch of the Wazuh poller: the cursor, the failure streak and the circuit breaker. */
module WazuhPoller {
  import opened Options

  const FAIL_LIMIT: nat := 10

  /** What becomes of a hit: the decoder rejects it, it is stored (or recognised as stored
      before), or its ingest fails after its retries. */
  datatype Outcome = Rejected | Stored(dedup: bool) | Failed

  /** A hit with its sort key; the indexer returns hits in ascending order of it. */
  datatype Hit = Hit(sort: nat, outcome: Outcome)

  datatype Batch = Batch(
    accepted: nat, dropped: nat, lastSort: Option<nat>, streak: nat, tripped: bool, processed: nat)

  // ---------------------------------------------------------------------------
  // What a batch should come to.
  // ---------------------------------------------------------------------------

  predicate Ascending(hits: seq<Hit>) {
    forall i, j :: 0 <= i < j < |hits| ==> hits[i].sort < hits[j].sort
  }

  predicate NoneStored(hits: seq<Hit>, i: nat, j: nat)
    requires i <= j <= |hits|
  {
    forall k :: i <= k < j ==> !hits[k].outcome.Stored?
  }

  /** Ingest failures among the hits from `i` to before `j`. */
  function Failures(hits: seq<Hit>, i: nat, j: nat): nat
    requires i <= j <= |hits|
    decreases j
  {
    if i == j then 0 else Failures(hits, i, j - 1) + if hits[j - 1].outcome.Failed? then 1 else 0
  }

  /** Within the first `n` hits the limit of failures is reached with nothing stored between. */
  ghost predicate LimitReached(hits: seq<Hit>, n: nat)
    requires n <= |hits|
  {
    exists i, j :: 0 <= i <= j <= n && NoneStored(hits, i, j) && Failures(hits, i, j) >= 10
  }

  /** `s` is the sort key of the last of the first `n` hits that did not fail. */
  ghost predicate IsLastHandled(hits: seq<Hit>, n: nat, s: Option<nat>)
    requires n <= |hits|
  {
    match s
    case None => forall i :: 0 <= i < n ==> hits[i].outcome.Failed?
    case Some(k) =>
      exists i :: 0 <= i < n && hits[i].sort == k && !hits[i].outcome.Failed?
                  && forall j :: i < j < n ==> hits[j].outcome.Failed?
  }

  function Accepted(hits: seq<Hit>, n: nat): nat
    requires n <= |hits|
  {
    if n == 0 then 0 else Accepted(hits, n - 1) + if hits[n - 1].outcome == Stored(false) then 1 else 0
  }

  function Dropped(hits: seq<Hit>, n: nat): nat
    requires n <= |hits|
  {
    if n == 0 then 0 else Dropped(hits, n - 1) + if hits[n - 1].outcome.Stored? then 0 else 1
  }

  predicate IsLost(hit: Hit) {
    hit.outcome.Rejected? || hit.outcome.Failed?
  }

  function NewOnes(hits: seq<Hit>, n: nat): set<nat>
    requires n <= |hits|
  {
    set i: nat | i < n && hits[i].outcome == Stored(false)
  }

  function LostOnes(hits: seq<Hit>, n: nat): set<nat>
    requires n <= |hits|
  {
    set i: nat | i < n && IsLost(hits[i])
  }

  lemma OneHitMore(hits: seq<Hit>, n: nat)
    requires n < |hits|
    ensures NewOnes(hits, n + 1) == NewOnes(hits, n) + if hits[n].outcome == Stored(false) then {n} else {}
    ensures LostOnes(hits, n + 1) == LostOnes(hits, n) + if IsLost(hits[n]) then {n} else {}
  {
  }

  /** The two totals count hits: those stored for the first time, and those rejected or failed. */
  lemma {:induction false} TotalsCount(hits: seq<Hit>, n: nat)
    requires n <= |hits|
    ensures Accepted(hits, n) == |NewOnes(hits, n)| && Dropped(hits, n) == |LostOnes(hits, n)|
  {
    if n > 0 {
      TotalsCount(hits, n - 1);
      OneHitMore(hits, n - 1);
    }
  }

  /** The failures since the last stored of the first `n` hits. */
  function Streak(hits: seq<Hit>, n: nat): nat
    requires n <= |hits|
  {
    if n == 0 || hits[n - 1].outcome.Stored? then 0
    else Streak(hits, n - 1) + if hits[n - 1].outcome.Failed? then 1 else 0
  }

  /** Where that streak begins: just past the last stored hit. */
  function StreakStart(hits: seq<Hit>, n: nat): (m: nat)
    requires n <= |hits|
    ensures m <= n && NoneStored(hits, m, n)
    ensures m > 0 ==> hits[m - 1].outcome.Stored?
    ensures Streak(hits, n) == Failures(hits, m, n)
  {
    if n == 0 || hits[n - 1].outcome.Stored? then n else StreakStart(hits, n - 1)
  }

  lemma {:induction false} FewerFailures(hits: seq<Hit>, m: nat, i: nat, j: nat)
    requires m <= i <= j <= |hits|
    ensures Failures(hits, i, j) <= Failures(hits, m, j)
    decreases j
  {
    if i < j { FewerFailures(hits, m, i, j - 1); }
  }

  /** A stretch without a stored hit that ends at `j` lies within the streak there. */
  lemma StretchWithinStreak(hits: seq<Hit>, i: nat, j: nat)
    requires i <= j <= |hits| && NoneStored(hits, i, j)
    ensures Failures(hits, i, j) <= Streak(hits, j)
  {
    var m := StreakStart(hits, j);
    assert m <= i;
    FewerFailures(hits, m, i, j);
  }

  // ---------------------------------------------------------------------------
  // The batch loop.
  // ---------------------------------------------------------------------------

  /** The breaker had no reason to trip before hit `n`. */
  predicate NotTrippedBefore(hits: seq<Hit>, n: nat)
    requires n <= |hits|
  {
    forall k :: 0 <= k < n ==> Streak(hits, k) < FAIL_LIMIT
  }

  /** The loop stopped where the streak first reached the limit, or at the end. */
  predicate StopsRight(hits: seq<Hit>, b: Batch) {
    && b.processed <= |hits|
    && NotTrippedBefore(hits, b.processed)
    && b.streak == Streak(hits, b.processed)
    && if b.tripped then b.streak >= FAIL_LIMIT else b.processed == |hits| && b.streak < FAIL_LIMIT
  }

  method ProcessBatch(hits: seq<Hit>) returns (b: Batch)
    ensures StopsRight(hits, b)
    ensures b.accepted == Accepted(hits, b.processed) && b.dropped == Dropped(hits, b.processed)
    ensures IsLastHandled(hits, b.processed, b.lastSort)
  {
    b := Batch(0, 0, None, 0, false, 0);
    for i := 0 to |hits|
      invariant b.processed == i && !b.tripped
      invariant b.accepted == Accepted(hits, i) && b.dropped == Dropped(hits, i)
      invariant b.streak == Streak(hits, i) < FAIL_LIMIT
      invariant IsLastHandled(hits, i, b.lastSort)
      invariant NotTrippedBefore(hits, i)
    {
      var hit := hits[i];
      b := b.(processed := i + 1);
      match hit.outcome
      case Rejected => b := b.(dropped := b.dropped + 1, lastSort := Some(hit.sort));
      case Stored(dedup) =>
        b := b.(accepted := b.accepted + if dedup then 0 else 1, streak := 0, lastSort := Some(hit.sort));
      case Failed =>
        b := b.(dropped := b.dropped + 1, streak := b.streak + 1);
        if b.streak >= FAIL_LIMIT {
          b := b.(tripped := true);
          break;
        }
    }
  }

  /** The breaker trips exactly when the limit of failures is reached in the batch with nothing
      stored between them, and at the first hit where it is. */
  lemma BreakerIffLimit(hits: seq<Hit>, b: Batch)
    requires StopsRight(hits, b)
    ensures b.tripped <==> LimitReached(hits, |hits|)
    ensures forall n :: 0 <= n < b.processed ==> !LimitReached(hits, n)
  {
    if b.tripped {
      var m := StreakStart(hits, b.processed);
      assert Failures(hits, m, b.processed) >= FAIL_LIMIT;
    }
    forall n | 0 <= n <= |hits| && NotTrippedBefore(hits, n) && Streak(hits, n) < FAIL_LIMIT
      ensures !LimitReached(hits, n)
    {
      BelowLimit(hits, n);
    }
    assert forall n :: 0 <= n < b.processed ==> NotTrippedBefore(hits, n);
  }

  lemma BelowLimit(hits: seq<Hit>, n: nat)
    requires n <= |hits| && NotTrippedBefore(hits, n) && Streak(hits, n) < FAIL_LIMIT
    ensures !LimitReached(hits, n)
  {
    forall i, j | 0 <= i <= j <= n && NoneStored(hits, i, j) ensures Failures(hits, i, j) < FAIL_LIMIT {
      StretchWithinStreak(hits, i, j);
    }
  }

  // ---------------------------------------------------------------------------
  // The cursor.
  // ---------------------------------------------------------------------------

  /** The cursor moves only when some hit was handled. */
  function NewCursor(cursor: nat, lastSort: Option<nat>): nat {
    if lastSort.Some? then lastSort.value else cursor
  }

  /** The cursor row with its running totals. */
  class CursorRow {
    var searchAfter: nat
    var ingestedTotal: nat
    var droppedTotal: nat

    constructor (searchAfter: nat)
      ensures this.searchAfter == searchAfter && ingestedTotal == 0 && droppedTotal == 0
    {
      this.searchAfter, ingestedTotal, droppedTotal := searchAfter, 0, 0;
    }

    /** One poll: the batch, then the row; `b.tripped` is the error raised afterwards. */
    method PollOnce(hits: seq<Hit>) returns (b: Batch)
      modifies this
      ensures StopsRight(hits, b) && IsLastHandled(hits, b.processed, b.lastSort)
      ensures searchAfter == NewCursor(old(searchAfter), b.lastSort)
      ensures ingestedTotal == old(ingestedTotal) + Accepted(hits, b.processed)
      ensures droppedTotal == old(droppedTotal) + Dropped(hits, b.processed)
    {
      b := ProcessBatch(hits);
      if b.lastSort.Some? {
        searchAfter := b.lastSort.value;
      }
      ingestedTotal := ingestedTotal + b.accepted;
      droppedTotal := droppedTotal + b.dropped;
    }
  }

  /** A failed hit is passed over when one after it, among the first `n`, was stored or rejected. */
  predicate PassedOver(hits: seq<Hit>, n: nat, i: nat)
    requires i < n <= |hits|
  {
    hits[i].outcome.Failed? && exists j :: i < j < n && !hits[j].outcome.Failed?
  }

  predicate Beyond(hits: seq<Hit>, cursor: nat) {
    Ascending(hits) && forall i :: 0 <= i < |hits| ==> hits[i].sort > cursor
  }

  /** The cursor never moves back. A processed hit beyond the new cursor failed, and so is fetched
      again; a processed hit is at or before it exactly when it was stored, rejected, or failed
      and was passed over. */
  lemma CursorSafe(cursor: nat, hits: seq<Hit>, n: nat, lastSort: Option<nat>)
    requires n <= |hits| && Beyond(hits, cursor) && IsLastHandled(hits, n, lastSort)
    ensures NewCursor(cursor, lastSort) >= cursor
    ensures forall i :: 0 <= i < n && hits[i].sort > NewCursor(cursor, lastSort) ==> hits[i].outcome.Failed?
    ensures forall i :: 0 <= i < n ==>
              (hits[i].sort <= NewCursor(cursor, lastSort) <==> !hits[i].outcome.Failed? || PassedOver(hits, n, i))
  {
    if lastSort.Some? {
      var k :| 0 <= k < n && hits[k].sort == lastSort.value && !hits[k].outcome.Failed?
               && forall j :: k < j < n ==> hits[j].outcome.Failed?;
      forall i | 0 <= i < n
        ensures hits[i].sort <= lastSort.value <==> !hits[i].outcome.Failed? || PassedOver(hits, n, i)
      {
        assert i < k ==> hits[i].sort < hits[k].sort;
        assert k < i ==> hits[k].sort < hits[i].sort;
      }
    }
  }

  /** When the breaker trips, the cursor stays before a failure of the streak exactly when the
      decoder rejected nothing after it. */
  lemma BreakerCursor(cursor: nat, hits: seq<Hit>, n: nat, lastSort: Option<nat>, first: nat)
    requires n <= |hits| && Beyond(hits, cursor) && IsLastHandled(hits, n, lastSort)
    requires StreakStart(hits, n) <= first < n && hits[first].outcome.Failed?
    ensures NewCursor(cursor, lastSort) < hits[first].sort <==>
            forall i :: first < i < n ==> !hits[i].outcome.Rejected?
  {
    CursorSafe(cursor, hits, n, lastSort);
    assert hits[first].sort <= NewCursor(cursor, lastSort) <==> PassedOver(hits, n, first);
    assert forall i :: first < i < n ==> !hits[i].outcome.Stored?;
  }

  function FailureAt(k: nat): Hit {
    Hit(k, Failed)
  }

  /** A rejected hit among the failures: the breaker trips with the cursor past a failed hit. */
  lemma BreakerCanPassFailures()
    ensures var hits := [Hit(1, Failed), Hit(2, Rejected)] + seq(9, i requires 0 <= i < 9 => FailureAt(3 + i));
            && Beyond(hits, 0) && NotTrippedBefore(hits, 11) && Streak(hits, 11) == 10
            && IsLastHandled(hits, 11, Some(2)) && hits[0].outcome.Failed? && hits[0].sort < NewCursor(0, Some(2))
  {
    var hits := [Hit(1, Failed), Hit(2, Rejected)] + seq(9, i requires 0 <= i < 9 => FailureAt(3 + i));
    assert hits[1] == Hit(2, Rejected);
    assert Streak(hits, 0) == 0 && Streak(hits, 1) == 1;
    forall n | 2 <= n <= 11 ensures Streak(hits, n) == n - 1 {
      StreakOfFailures(hits, 2, n);
    }
  }

  lemma {:induction false} StreakOfFailures(hits: seq<Hit>, m: nat, n: nat)
    requires m <= n <= |hits| && forall i :: m <= i < n ==> hits[i].outcome.Failed?
    ensures Streak(hits, n) == Streak(hits, m) + (n - m)
  {
    if m < n { StreakOfFailures(hits, m, n - 1); }
  }

  // ---------------------------------------------------------------------------
  // Many polls.
  // ---------------------------------------------------------------------------

  /** Hits are numbered from 1 in the indexer's order, and the cursor is the number of the last
      one passed. The history lists every hit processed, with its outcome. */
  datatype Poller = Poller(cursor: nat, history: seq<Hit>)

  /** A poll fetches the hits just beyond the cursor, runs the batch and moves the cursor. */
  ghost predicate Polls(p: Poller, hits: seq<Hit>, b: Batch, p': Poller) {
    && (forall i :: 0 <= i < |hits| ==> hits[i].sort == p.cursor + 1 + i)
    && StopsRight(hits, b) && IsLastHandled(hits, b.processed, b.lastSort)
    && p' == Poller(NewCursor(p.cursor, b.lastSort), p.history + hits[..b.processed])
  }

  ghost predicate IsRun(ps: seq<Poller>, batches: seq<(seq<Hit>, Batch)>) {
    && |ps| == |batches| + 1
    && ps[0].history == []
    && forall i :: 0 <= i < |batches| ==> Polls(ps[i], batches[i].0, batches[i].1, ps[i + 1])
  }

  /** A hit once stored or rejected is never processed again. */
  predicate HandledOnce(history: seq<Hit>) {
    forall a, b :: 0 <= a < b < |history| && !history[a].outcome.Failed? ==> history[b].sort != history[a].sort
  }

  predicate WasProcessed(history: seq<Hit>, k: nat) {
    exists a :: 0 <= a < |history| && history[a].sort == k
  }

  /** Relative to the cursor at the start of the run. */
  predicate Accounted(start: nat, p: Poller) {
    && start <= p.cursor
    && HandledOnce(p.history)
    && (forall a :: 0 <= a < |p.history| && !p.history[a].outcome.Failed? ==> p.history[a].sort <= p.cursor)
    && forall k :: start < k <= p.cursor ==> WasProcessed(p.history, k)
  }

  lemma PollPasses(start: nat, p: Poller, hits: seq<Hit>, b: Batch, p': Poller)
    requires Accounted(start, p) && Polls(p, hits, b, p')
    ensures forall k :: start < k <= p'.cursor ==> WasProcessed(p'.history, k)
  {
    CursorSafe(p.cursor, hits, b.processed, b.lastSort);
    forall k | start < k <= p'.cursor ensures WasProcessed(p'.history, k) {
      if k <= p.cursor {
        assert WasProcessed(p.history, k);
        var a :| 0 <= a < |p.history| && p.history[a].sort == k;
        assert p'.history[a].sort == k;
      } else {
        assert p'.history[|p.history| + (k - p.cursor - 1)].sort == k;
      }
    }
  }

  lemma PollKeeps(start: nat, p: Poller, hits: seq<Hit>, b: Batch, p': Poller)
    requires Accounted(start, p) && Polls(p, hits, b, p')
    ensures Accounted(start, p')
  {
    CursorSafe(p.cursor, hits, b.processed, b.lastSort);
    PollPasses(start, p, hits, b, p');
    assert forall a :: 0 <= a < b.processed ==> p'.history[|p.history| + a] == hits[a];
    assert forall a :: 0 <= a < |p.history| ==> p'.history[a] == p.history[a];
  }

  /** Over any number of polls the cursor only advances, every hit it passed was processed, and a
      hit once stored or rejected is never fetched again. */
  lemma {:induction false} RunAccounted(ps: seq<Poller>, batches: seq<(seq<Hit>, Batch)>, n: nat)
    requires IsRun(ps, batches) && n <= |batches|
    ensures Accounted(ps[0].cursor, ps[n])
  {
    if n > 0 {
      RunAccounted(ps, batches, n - 1);
      PollKeeps(ps[0].cursor, ps[n - 1], batches[n - 1].0, batches[n - 1].1, ps[n]);
    }
  }
}
