/** The burst rule when Redis calls fail: what a failed call does to the window of a counter. */
module BurstFaults {
  import opened Options
  import opened BurstDetector

  /** A failed login with the Redis calls that work for it. */
  datatype Attempt = Attempt(at: real, ops: Ops)

  function RunWith(attempts: seq<Attempt>): Track {
    if attempts == [] then Track(Keys(None, None), [], [])
    else
      var last := |attempts| - 1;
      NextWith(RunWith(attempts[..last]), last, attempts[last].at, attempts[last].ops)
  }

  predicate Ordered(attempts: seq<Attempt>) {
    forall i, j :: 0 <= i <= j < |attempts| ==> attempts[i].at <= attempts[j].at
  }

  function AllHealthy(times: seq<real>): (attempts: seq<Attempt>)
    ensures |attempts| == |times|
  {
    seq(|times|, i requires 0 <= i < |times| => Attempt(times[i], HEALTHY))
  }

  /** With every call working these are the runs of the healthy rule. */
  lemma {:induction false} HealthyRun(times: seq<real>)
    ensures RunWith(AllHealthy(times)) == Run(times)
  {
    if times != [] {
      var last := |times| - 1;
      HealthyRun(times[..last]);
      assert AllHealthy(times)[..last] == AllHealthy(times[..last]);
    }
  }

  /** The counter counts its members, all of them earlier than now. */
  predicate Counts(t: Track, n: nat) {
    && (t.members == [] <==> t.keys.window.None?)
    && (t.keys.window.Some? ==> t.keys.window.value.count == |t.members|)
    && forall i :: 0 <= i < |t.members| ==> t.members[i] < n
  }

  lemma {:induction false} RunCounts(attempts: seq<Attempt>)
    ensures Counts(RunWith(attempts), |attempts|)
  {
    if attempts != [] { RunCounts(attempts[..|attempts| - 1]); }
  }

  /** The last attempt opened a new counter. */
  predicate OpensCounter(attempts: seq<Attempt>) {
    attempts != [] && RunWith(attempts).members == [|attempts| - 1]
  }

  lemma OpenedCounter(attempts: seq<Attempt>)
    requires OpensCounter(attempts)
    ensures var a := attempts[|attempts| - 1];
            RunWith(attempts).keys.window == Some(Counter(1, if a.ops.expire then Some(a.at + WINDOW) else None))
  {
    var last := |attempts| - 1;
    RunCounts(attempts[..last]);
    var t := RunWith(attempts[..last]);
    assert RunWith(attempts) == NextWith(t, last, attempts[last].at, attempts[last].ops);
    assert t.members != [] ==> t.members[0] < last;
    assert Live(t.keys, attempts[last].at) ==> t.members != [];
    assert |t.members + [last]| == |t.members| + 1;
  }

  /** If the counter opened at `n` is still the one that counts, then its members all came within the
      window. */
  predicate Within(attempts: seq<Attempt>, n: nat) {
    var t := RunWith(attempts);
    n < |attempts| && t.members != [] && t.members[0] == n ==>
      forall i :: 0 <= i < |t.members| ==>
                    t.members[i] < |attempts| && attempts[t.members[i]].at < attempts[n].at + 60.0
  }

  /** However the run goes on, this counter counts only failures within its window. */
  ghost predicate StaysWithin(attempts: seq<Attempt>)
    requires attempts != []
  {
    forall more :: Ordered(attempts + more) ==> Within(attempts + more, |attempts| - 1)
  }

  /** A later counter, or this one with its expiry and with members before it. */
  predicate Bounded(t: Track, all: seq<Attempt>, n: nat)
    requires n < |all|
  {
    && t.members != [] && t.members[0] >= n && Counts(t, |all|)
    && (t.members[0] == n ==>
          && t.keys.window.value.expires == Some(all[n].at + WINDOW)
          && forall i :: 0 <= i < |t.members| ==> all[t.members[i]].at < all[n].at + WINDOW)
  }

  lemma {:induction false} StillBounded(attempts: seq<Attempt>, more: seq<Attempt>)
    requires OpensCounter(attempts) && attempts[|attempts| - 1].ops.expire
    ensures Bounded(RunWith(attempts + more), attempts + more, |attempts| - 1)
    decreases |more|
  {
    if more == [] {
      assert attempts + more == attempts;
      OpenedCounter(attempts);
      RunCounts(attempts);
    } else {
      var last := |more| - 1;
      StillBounded(attempts, more[..last]);
      var all := attempts + more[..last];
      assert attempts + more == all + [more[last]];
      assert (all + [more[last]])[..|all|] == all;
    }
  }

  /** Without an expiry, a failure a whole window later is counted still. */
  lemma UnboundedCounter(attempts: seq<Attempt>, a: Attempt)
    requires OpensCounter(attempts) && !attempts[|attempts| - 1].ops.expire
    requires a == Attempt(attempts[|attempts| - 1].at + WINDOW, HEALTHY.(exists_ := false))
    ensures !Within(attempts + [a], |attempts| - 1)
  {
    OpenedCounter(attempts);
    var (t, all) := (RunWith(attempts), attempts + [a]);
    assert all[..|attempts|] == attempts;
    assert RunWith(all) == NextWith(t, |attempts|, a.at, a.ops);
    assert RunWith(all).members == t.members + [|attempts|];
    assert RunWith(all).members[1] == |attempts| && all[|attempts|] == a;
  }

  /** The failures that a counter counts lie within 60 seconds of the one that opened it, however the
      run goes on and whatever else fails, if and only if the expiry was set when it was opened. */
  lemma WindowKeptIff(attempts: seq<Attempt>)
    requires Ordered(attempts) && OpensCounter(attempts)
    ensures StaysWithin(attempts) <==> attempts[|attempts| - 1].ops.expire
  {
    var n := |attempts| - 1;
    if attempts[n].ops.expire {
      forall more | Ordered(attempts + more) ensures Within(attempts + more, n) {
        StillBounded(attempts, more);
      }
    } else {
      var a := Attempt(attempts[n].at + WINDOW, HEALTHY.(exists_ := false));
      UnboundedCounter(attempts, a);
      assert Ordered(attempts + [a]);
    }
  }

  /** One lost expiry is enough. */
  lemma LostExpiryUnbounded(at: real)
    ensures var attempts := [Attempt(at, HEALTHY.(expire := false))];
            Ordered(attempts) && OpensCounter(attempts) && !StaysWithin(attempts)
  {
    var attempts := [Attempt(at, HEALTHY.(expire := false))];
    assert attempts[..0] == [];
    assert RunWith(attempts) == NextWith(RunWith([]), 0, at, attempts[0].ops);
    WindowKeptIff(attempts);
  }

  /** The calls for attempt `i` of a run get as far as the counter. */
  predicate IsCounted(all: seq<Attempt>, i: nat)
    requires i < |all|
  {
    all[i].ops.incr && !(all[i].ops.exists_ && Cooling(RunWith(all[..i]).keys, all[i].at))
  }

  /** The counter opened at `n` lives for ever and has counted all that got as far since. */
  predicate CountsSince(all: seq<Attempt>, n: nat) {
    var t := RunWith(all);
    && t.members != [] && t.members[0] == n && t.keys.window == Some(Counter(|t.members|, None))
    && forall i :: n < i < |all| ==> (i in t.members <==> IsCounted(all, i))
  }

  lemma StillCounts(all: seq<Attempt>, a: Attempt, n: nat)
    requires CountsSince(all, n) && n < |all| && Counts(RunWith(all), |all|)
    ensures CountsSince(all + [a], n)
    ensures (|RunWith(all + [a]).firings| > |RunWith(all).firings|) <==>
            IsCounted(all + [a], |all|) && |RunWith(all).members| >= THRESHOLD - 1
  {
    var (t, all') := (RunWith(all), all + [a]);
    assert all'[..|all|] == all;
    assert RunWith(all') == NextWith(t, |all|, a.at, a.ops);
    assert |all| !in t.members;
    forall i | n < i < |all| ensures IsCounted(all', i) == IsCounted(all, i) {
      assert all'[..i] == all[..i];
    }
  }

  /** When the call that sets the expiry fails, the counter never ends: at whatever times the run goes
      on, and whatever else fails, every later failure that gets as far is counted by it, and the next
      one is reported if and only if it gets as far and three were counted before. */
  lemma {:induction false} LostExpiryCountsForEver(attempts: seq<Attempt>, more: seq<Attempt>, a: Attempt)
    requires OpensCounter(attempts) && !attempts[|attempts| - 1].ops.expire
    ensures var all := attempts + more;
            && CountsSince(all, |attempts| - 1)
            && (|RunWith(all + [a]).firings| > |RunWith(all).firings| <==>
                IsCounted(all + [a], |all|) && |RunWith(all).members| >= THRESHOLD - 1)
  {
    var all := attempts + more;
    if more == [] {
      assert all == attempts;
      OpenedCounter(attempts);
    } else {
      var last := |more| - 1;
      LostExpiryCountsForEver(attempts, more[..last], more[last]);
      RunCounts(attempts + more[..last]);
      StillCounts(attempts + more[..last], more[last], |attempts| - 1);
      assert all == attempts + more[..last] + [more[last]];
    }
    RunCounts(all);
    StillCounts(all, a, |attempts| - 1);
  }

  // ---------------------------------------------------------------------------
  // A lost cooldown.
  // ---------------------------------------------------------------------------

  /** After a report, the next failure within the two minutes, with the counter alive and no cooldown
      from before, is reported as well if and only if the call that sets the cooldown failed. */
  lemma CooldownHeldIff(front: seq<Attempt>, a: Attempt, b: Attempt)
    requires |RunWith(front + [a]).firings| > |RunWith(front).firings|
    requires a.at <= b.at < a.at + 120.0 && b.ops.exists_ && b.ops.incr
    requires Live(RunWith(front + [a]).keys, b.at) && !Cooling(RunWith(front).keys, b.at)
    ensures |RunWith(front + [a] + [b]).firings| > |RunWith(front + [a]).firings| <==> !a.ops.set_
  {
    var (all, all') := (front + [a], front + [a] + [b]);
    assert all[..|front|] == front && all'[..|all|] == all;
    RunCounts(front);
    assert RunWith(all) == NextWith(RunWith(front), |front|, a.at, a.ops);
    assert RunWith(all') == NextWith(RunWith(all), |all|, b.at, b.ops);
  }
}
