/** The failed-login burst rule for one user: a counter that expires a minute after its first
    failure, and a cooldown of two minutes after each detection. Times are in seconds. */
module BurstDetector {
  import opened Options

  const WINDOW := 60.0
  const THRESHOLD: nat := 4
  const COOLDOWN := 120.0

  /** A counter key; without an expiry it lives for ever. */
  datatype Counter = Counter(count: nat, expires: Option<real>)

  /** The two Redis keys of one user. */
  datatype Keys = Keys(window: Option<Counter>, cooldown: Option<real>)

  /** Which of the four Redis calls succeed; a failed call is replaced by its default. */
  datatype Ops = Ops(exists_: bool, incr: bool, expire: bool, set_: bool)

  const HEALTHY := Ops(true, true, true, true)

  predicate Cooling(k: Keys, now: real) {
    k.cooldown.Some? && now < k.cooldown.value
  }

  predicate Live(k: Keys, now: real) {
    k.window.Some? && (k.window.value.expires.None? || now < k.window.value.expires.value)
  }

  /** What one failed login at `now` leaves behind, and whether it is reported. */
  function Failure(k: Keys, now: real, ops: Ops): (Keys, bool) {
    if ops.exists_ && Cooling(k, now) then (k, false)
    else if !ops.incr then (k, false)
    else
      var c := if Live(k, now) then Counter(k.window.value.count + 1, k.window.value.expires) else Counter(1, None);
      var c' := if c.count == 1 && ops.expire then c.(expires := Some(now + WINDOW)) else c;
      var fired := c.count >= THRESHOLD;
      (Keys(Some(c'), if fired && ops.set_ then Some(now + COOLDOWN) else k.cooldown), fired)
  }

  class Detector {
    var window: Option<Counter>
    var cooldown: Option<real>

    constructor ()
      ensures View() == Keys(None, None)
    {
      window, cooldown := None, None;
    }

    function View(): Keys
      reads this
    {
      Keys(window, cooldown)
    }

    /** The result holds the count that is reported. */
    method OnFailure(now: real, ops: Ops) returns (reported: Option<nat>)
      modifies this
      ensures (View(), reported.Some?) == Failure(old(View()), now, ops)
      ensures reported.Some? ==> window.Some? && reported.value == window.value.count >= THRESHOLD
    {
      var inCooldown := ops.exists_ && cooldown.Some? && now < cooldown.value;
      if inCooldown || !ops.incr {
        return None;
      }
      var live := window.Some? && (window.value.expires.None? || now < window.value.expires.value);
      window := Some(if live then Counter(window.value.count + 1, window.value.expires) else Counter(1, None));
      var count := window.value.count;
      if count == 1 && ops.expire {
        window := Some(Counter(1, Some(now + WINDOW)));
      }
      if count >= THRESHOLD {
        if ops.set_ {
          cooldown := Some(now + COOLDOWN);
        }
        return Some(count);
      }
      return None;
    }
  }

  // ---------------------------------------------------------------------------
  // Runs, with what is counted on record; `Run` has Redis healthy.
  // ---------------------------------------------------------------------------

  /** A detection: the failure that set it off and the failures counted for it. */
  datatype Firing = Firing(at: nat, members: seq<nat>)

  /** `members` are the failures that the current counter has counted, by position. */
  datatype Track = Track(keys: Keys, members: seq<nat>, firings: seq<Firing>)

  function NextWith(t: Track, n: nat, now: real, ops: Ops): Track {
    if (ops.exists_ && Cooling(t.keys, now)) || !ops.incr then t
    else
      var (keys, fired) := Failure(t.keys, now, ops);
      var members := (if Live(t.keys, now) then t.members else []) + [n];
      Track(keys, members, if fired then t.firings + [Firing(n, members)] else t.firings)
  }

  function Next(t: Track, n: nat, now: real): Track {
    NextWith(t, n, now, HEALTHY)
  }

  function Run(times: seq<real>): Track {
    if times == [] then Track(Keys(None, None), [], [])
    else Next(Run(times[..|times| - 1]), |times| - 1, times[|times| - 1])
  }

  predicate InOrder(times: seq<real>) {
    forall i, j :: 0 <= i <= j < |times| ==> times[i] <= times[j]
  }

  /** Positions of failures that one counter counted: in order, the last before `n`, and all
      while the counter lived. */
  predicate OneWindow(times: seq<real>, members: seq<nat>, n: nat) {
    && members != [] && n <= |times| && members[0] < n
    && (forall i :: 0 <= i < |members| ==> members[i] < n && times[members[i]] < times[members[0]] + 60.0)
    && (forall i, j :: 0 <= i < j < |members| ==> members[i] < members[j])
  }

  predicate GoodFiring(times: seq<real>, f: Firing) {
    && |f.members| == 4 && f.members[3] == f.at < |times|
    && OneWindow(times, f.members, f.at + 1)
  }

  /** The later detection comes after the cooldown and counts only later failures. */
  predicate Apart(times: seq<real>, f: Firing, g: Firing) {
    && f.at < |times| && g.at < |times|
    && times[g.at] - times[f.at] >= 120.0
    && forall m :: m in g.members ==> m > f.at
  }

  predicate CounterFits(times: seq<real>, t: Track) {
    match t.keys.window
    case None => t.members == []
    case Some(c) =>
      && OneWindow(times, t.members, |times|)
      && c == Counter(|t.members|, Some(times[t.members[0]] + WINDOW))
      && c.count <= THRESHOLD
  }

  /** The last detection set the cooldown, and the counter is either the one it used up or one
      opened after the cooldown. */
  predicate CooldownFits(times: seq<real>, t: Track) {
    if t.firings == [] then t.keys.cooldown.None? && |t.members| < THRESHOLD
    else
      var f := t.firings[|t.firings| - 1];
      && f.at < |times| && t.keys.cooldown == Some(times[f.at] + COOLDOWN)
      && t.members != [] && t.members[0] < |times|
      && (t.members == f.members || (|t.members| < THRESHOLD && times[t.members[0]] >= times[f.at] + COOLDOWN
                                     && forall i :: 0 <= i < |t.members| ==> t.members[i] > f.at))
  }

  predicate FiringsFit(times: seq<real>, t: Track) {
    && (forall i :: 0 <= i < |t.firings| ==> GoodFiring(times, t.firings[i]))
    && forall i, j :: 0 <= i < j < |t.firings| ==> Apart(times, t.firings[i], t.firings[j])
  }

  predicate Fits(times: seq<real>, t: Track) {
    CounterFits(times, t) && CooldownFits(times, t) && FiringsFit(times, t)
  }

  /** What a failure at `now` can rely on: it is no earlier than those before. */
  predicate NotBefore(times: seq<real>, now: real) {
    InOrder(times) && forall i :: 0 <= i < |times| ==> times[i] <= now
  }

  /** Outside the cooldown, the counter that set off the last detection has expired. */
  lemma UsedUp(times: seq<real>, now: real, t: Track)
    requires NotBefore(times, now) && Fits(times, t) && !Cooling(t.keys, now) && Live(t.keys, now)
    ensures |t.members| < THRESHOLD
    ensures t.firings != [] ==>
              var f := t.firings[|t.firings| - 1];
              t.members != f.members && forall i :: 0 <= i < |t.members| ==> t.members[i] > f.at
  {
    if t.firings != [] {
      var f := t.firings[|t.firings| - 1];
      assert GoodFiring(times, f);
      assert times[f.members[0]] <= times[f.at];
    }
  }

  lemma CounterNext(times: seq<real>, now: real, t: Track)
    requires NotBefore(times, now) && Fits(times, t)
    ensures CounterFits(times + [now], Next(t, |times|, now))
  {
    var more, t' := times + [now], Next(t, |times|, now);
    assert forall i :: 0 <= i < |times| ==> more[i] == times[i];
    if !Cooling(t.keys, now) && Live(t.keys, now) {
      UsedUp(times, now, t);
      assert more[|times|] == now < times[t.members[0]] + WINDOW;
    }
  }

  lemma CooldownNext(times: seq<real>, now: real, t: Track)
    requires NotBefore(times, now) && Fits(times, t)
    ensures CooldownFits(times + [now], Next(t, |times|, now))
  {
    var more, t' := times + [now], Next(t, |times|, now);
    assert forall i :: 0 <= i < |times| ==> more[i] == times[i];
    if !Cooling(t.keys, now) && Live(t.keys, now) { UsedUp(times, now, t); }
  }

  /** A new detection is good, and apart from the last one, hence from all. */
  lemma FiringsNext(times: seq<real>, now: real, t: Track)
    requires NotBefore(times, now) && Fits(times, t)
    ensures FiringsFit(times + [now], Next(t, |times|, now))
  {
    var more, n, t' := times + [now], |times|, Next(t, |times|, now);
    FiringsKept(times, now, t);
    if t'.firings != t.firings {
      CounterNext(times, now, t);
      var g := t'.firings[|t.firings|];
      assert GoodFiring(more, g);
      if t.firings != [] { NewFiringApart(times, now, t); }
    }
  }

  lemma NewFiringApart(times: seq<real>, now: real, t: Track)
    requires NotBefore(times, now) && Fits(times, t) && t.firings != []
    requires Next(t, |times|, now).firings != t.firings
    ensures var g := Next(t, |times|, now).firings[|t.firings|];
            forall i :: 0 <= i < |t.firings| ==> Apart(times + [now], t.firings[i], g)
  {
    var more, last := times + [now], |t.firings| - 1;
    var g := Next(t, |times|, now).firings[|t.firings|];
    assert forall i :: 0 <= i < |times| ==> more[i] == times[i];
    if Live(t.keys, now) { UsedUp(times, now, t); }
    assert Apart(more, t.firings[last], g);
    forall i | 0 <= i < last ensures Apart(more, t.firings[i], g) {
      assert Apart(times, t.firings[i], t.firings[last]);
      var f := t.firings[last];
      assert GoodFiring(times, f);
      assert f.members[3] in f.members;
    }
  }

  /** One failure more. */
  lemma FitsNext(times: seq<real>, now: real, t: Track)
    requires NotBefore(times, now) && Fits(times, t)
    ensures Fits(times + [now], Next(t, |times|, now))
  {
    CounterNext(times, now, t);
    CooldownNext(times, now, t);
    FiringsNext(times, now, t);
  }

  lemma FiringsKept(times: seq<real>, now: real, t: Track)
    requires FiringsFit(times, t)
    ensures FiringsFit(times + [now], t)
  {
    var more := times + [now];
    forall i | 0 <= i < |t.firings| ensures GoodFiring(more, t.firings[i]) {
      assert GoodFiring(times, t.firings[i]);
    }
    forall i, j | 0 <= i < j < |t.firings| ensures Apart(more, t.firings[i], t.firings[j]) {
      assert Apart(times, t.firings[i], t.firings[j]);
    }
  }

  lemma FitsNextRun(times: seq<real>, now: real)
    requires NotBefore(times, now) && Fits(times, Run(times))
    ensures Fits(times + [now], Run(times + [now]))
  {
    assert (times + [now])[..|times|] == times;
    FitsNext(times, now, Run(times));
  }

  lemma FrontInOrder(times: seq<real>)
    requires InOrder(times) && times != []
    ensures NotBefore(times[..|times| - 1], times[|times| - 1])
  {
  }

  /** In every run detections are two minutes apart, each is the fourth failure counted within a
      minute, and no failure is counted for two of them. */
  lemma {:induction false} RunFits(times: seq<real>)
    requires InOrder(times)
    ensures Fits(times, Run(times))
  {
    if times != [] {
      var front, now := times[..|times| - 1], times[|times| - 1];
      FrontInOrder(times);
      RunFits(front);
      FitsNextRun(front, now);
      assert front + [now] == times;
    }
  }

  // ---------------------------------------------------------------------------
  // What is sure to be reported.
  // ---------------------------------------------------------------------------

  function RunKeys(k: Keys, times: seq<real>): Keys {
    if times == [] then k
    else Failure(RunKeys(k, times[..|times| - 1]), times[|times| - 1], HEALTHY).0
  }

  /** The `i`-th failure of the run is reported. */
  predicate Reports(k: Keys, times: seq<real>, i: nat)
    requires i < |times|
  {
    Failure(RunKeys(k, times[..i]), times[i], HEALTHY).1
  }

  /** Keys as a run leaves them: counters expire, and a full one expires within the cooldown. */
  predicate Reachable(k: Keys) {
    k.window.Some? ==>
      && 1 <= k.window.value.count <= THRESHOLD && k.window.value.expires.Some?
      && (k.window.value.count == THRESHOLD ==>
            k.cooldown.Some? && k.window.value.expires.value <= k.cooldown.value)
  }

  lemma {:induction false} RunReachable(times: seq<real>)
    requires InOrder(times)
    ensures Run(times).keys == RunKeys(Keys(None, None), times)
    ensures Reachable(Run(times).keys)
  {
    if times != [] {
      var front, now := times[..|times| - 1], times[|times| - 1];
      RunReachable(front);
      RunFits(front);
    }
  }

  /** After `n` failures without a report: either the counter found at the start is still
      counting, or it made way for a new one after at most two of them. */
  predicate Midway(k: Keys, times: seq<real>, n: nat)
    requires 1 <= n <= |times|
  {
    var now := RunKeys(k, times[..n]);
    && now.cooldown == k.cooldown
    && now.window.Some? && now.window.value.expires.Some? && now.window.value.count < THRESHOLD
    && ((k.window.Some? && now.window.value.expires == k.window.value.expires
         && now.window.value.count == k.window.value.count + n)
        || (exists m :: 0 <= m <= 2 && m < n && now.window.value == Counter(n - m, Some(times[m] + WINDOW))))
  }

  lemma {:induction false} StillMidway(k: Keys, times: seq<real>, n: nat)
    requires InOrder(times) && 1 <= n <= |times| && times[|times| - 1] - times[0] < WINDOW
    requires Reachable(k) && !Cooling(k, times[0])
    requires forall i :: 0 <= i < n ==> !Reports(k, times, i)
    ensures Midway(k, times, n)
  {
    assert times[..n][..n - 1] == times[..n - 1] && times[..n][n - 1] == times[n - 1];
    assert !Reports(k, times, n - 1);
    assert times[0] <= times[n - 1] <= times[|times| - 1];
    if n == 1 {
      assert times[..0] == [];
      if !Live(k, times[0]) {
        assert RunKeys(k, times[..1]).window.value == Counter(1 - 0, Some(times[0] + WINDOW));
      }
    } else {
      StillMidway(k, times, n - 1);
      MidwayNext(k, times, n);
    }
  }

  lemma MidwayNext(k: Keys, times: seq<real>, n: nat)
    requires InOrder(times) && 2 <= n <= |times| && times[|times| - 1] - times[0] < WINDOW
    requires Reachable(k) && !Cooling(k, times[0]) && Midway(k, times, n - 1) && !Reports(k, times, n - 1)
    requires times[..n][..n - 1] == times[..n - 1] && times[..n][n - 1] == times[n - 1]
    ensures Midway(k, times, n)
  {
    var was, now := RunKeys(k, times[..n - 1]), RunKeys(k, times[..n]);
    assert times[0] <= times[n - 1] <= times[|times| - 1];
    if m :| 0 <= m <= 2 && m < n - 1 && was.window.value == Counter(n - 1 - m, Some(times[m] + WINDOW)) {
      assert times[0] <= times[m];
      assert now.window.value == Counter(n - m, Some(times[m] + WINDOW));
    } else if !Live(was, times[n - 1]) {
      assert now.window.value == Counter(n - (n - 1), Some(times[n - 1] + WINDOW));
    }
  }

  /** Any six failures within less than a minute, the first outside a cooldown, are enough: one
      of them is reported. */
  lemma SixSuffice(times: seq<real>, burst: seq<real>)
    requires InOrder(times + burst) && |burst| == 6 && burst[5] - burst[0] < 60.0
    requires !Cooling(Run(times).keys, burst[0])
    ensures exists i :: 0 <= i < 6 && Reports(Run(times).keys, burst, i)
  {
    var k := Run(times).keys;
    assert forall i :: 0 <= i < |times| ==> (times + burst)[i] == times[i];
    assert forall i :: 0 <= i < 6 ==> (times + burst)[|times| + i] == burst[i];
    RunReachable(times);
    if forall i :: 0 <= i < 6 ==> !Reports(k, burst, i) {
      StillMidway(k, burst, 6);
      assert false;
    }
  }

  const EARLY := [0.0]
  const LATE := [59.0, 59.0, 60.0, 60.0, 60.0]

  lemma OneEarly()
    ensures Run(EARLY).keys == Keys(Some(Counter(1, Some(60.0))), None)
  {
    assert EARLY[..0] == [] && EARLY[0] == 0.0;
  }

  /** Five are not: a counter about to expire takes two, and the next one the other three. */
  lemma FiveMayPass()
    ensures InOrder(EARLY + LATE) && LATE[4] - LATE[0] < 60.0 && !Cooling(Run(EARLY).keys, LATE[0])
    ensures forall i :: 0 <= i < 5 ==> !Reports(Run(EARLY).keys, LATE, i)
  {
    OneEarly();
    var k0 := Run(EARLY).keys;
    var k1 := Keys(Some(Counter(2, Some(60.0))), None);
    var k2 := Keys(Some(Counter(3, Some(60.0))), None);
    var k3 := Keys(Some(Counter(1, Some(120.0))), None);
    var k4 := Keys(Some(Counter(2, Some(120.0))), None);
    assert LATE[..0] == [];
    RunStep(k0, LATE, 0, k0, k1);
    RunStep(k0, LATE, 1, k1, k2);
    RunStep(k0, LATE, 2, k2, k3);
    RunStep(k0, LATE, 3, k3, k4);
    RunStep(k0, LATE, 4, k4, Keys(Some(Counter(3, Some(120.0))), None));
  }

  lemma RunStep(k: Keys, times: seq<real>, i: nat, before: Keys, after: Keys)
    requires i < |times| && RunKeys(k, times[..i]) == before && Failure(before, times[i], HEALTHY) == (after, false)
    ensures RunKeys(k, times[..i + 1]) == after && !Reports(k, times, i)
  {
    assert times[..i + 1][..i] == times[..i];
  }
}
