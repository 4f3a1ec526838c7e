/** The controller over many cycles: `loop()` called again and again until
    a cycle enters deep sleep, which does not return. */
module Lifecycle {
  import opened Config
  import opened Sink
  import opened Sleep
  import opened Controller

  predicate AllWellFormed(cs: seq<Cycle>) {
    forall i :: 0 <= i < |cs| ==> WellFormed(cs[i])
  }

  predicate AllDisconnected(cs: seq<Cycle>) {
    forall i :: 0 <= i < |cs| ==> !cs[i].connected
  }

  /** The calls of a run of cycles; the run ends with the cycle that sleeps. */
  function Run(s: State, cs: seq<Cycle>, wake: Pin): seq<Action>
    requires AllWellFormed(cs)
    decreases |cs|
  {
    if cs == [] then []
    else if Sleeps(s, cs[0]) then Emitted(s, cs[0], wake)
    else Emitted(s, cs[0], wake) + Run(NextState(s, cs[0]), cs[1..], wake)
  }

  /** The index of the first cycle whose clock is past the idle timeout
      counted from `since`, or |cs| when there is none. */
  function FirstExpired(since: Millis, cs: seq<Cycle>): (k: nat)
    ensures k <= |cs|
    ensures forall i :: 0 <= i < k ==> !IdleExpired(cs[i].now, since)
    ensures k < |cs| ==> IdleExpired(cs[k].now, since)
    decreases |cs|
  {
    if cs == [] then 0
    else if IdleExpired(cs[0].now, since) then 0
    else 1 + FirstExpired(since, cs[1..])
  }

  /** A disconnected first cycle either sleeps, ending the run, or calls
      nothing and leaves the statics as they were. */
  lemma RunDisconnected(s: State, cs: seq<Cycle>, wake: Pin)
    requires AllWellFormed(cs) && cs != [] && !cs[0].connected
    ensures AllWellFormed(cs[1..])
    ensures Run(s, cs, wake) == if IdleExpired(cs[0].now, s.lastConnectedTime)
                                then SleepActions(wake, cs[0].pullupOk, cs[0].wakeOk)
                                else Run(s, cs[1..], wake)
  {
    assert forall i :: 0 <= i < |cs[1..]| ==> cs[1..][i] == cs[i + 1];
    DisconnectedCycle(s, cs[0], wake);
    assert [] + Run(s, cs[1..], wake) == Run(s, cs[1..], wake);
  }

  /** The disconnected cycles after the first one are disconnected too. */
  lemma RestDisconnected(cs: seq<Cycle>)
    requires cs != [] && AllDisconnected(cs)
    ensures AllDisconnected(cs[1..])
  {
    assert forall i :: 0 <= i < |cs| - 1 ==> cs[1..][i] == cs[i + 1];
  }

  /** Disconnected cycles none of which is past the timeout call nothing. */
  lemma {:induction false} IdleRunQuiet(s: State, cs: seq<Cycle>, wake: Pin)
    requires AllWellFormed(cs) && AllDisconnected(cs)
    requires FirstExpired(s.lastConnectedTime, cs) == |cs|
    ensures Run(s, cs, wake) == []
    decreases |cs|
  {
    if cs != [] {
      RunDisconnected(s, cs, wake);
      RestDisconnected(cs);
      IdleRunQuiet(s, cs[1..], wake);
    }
  }

  /** Disconnected cycles call nothing up to the first one past the timeout,
      which enters deep sleep and ends the run. */
  lemma {:induction false} IdleRunSleeps(s: State, cs: seq<Cycle>, wake: Pin)
    requires AllWellFormed(cs) && AllDisconnected(cs)
    requires FirstExpired(s.lastConnectedTime, cs) < |cs|
    ensures var k := FirstExpired(s.lastConnectedTime, cs);
      Run(s, cs, wake) == SleepActions(wake, cs[k].pullupOk, cs[k].wakeOk)
    decreases |cs|
  {
    RunDisconnected(s, cs, wake);
    if !IdleExpired(cs[0].now, s.lastConnectedTime) {
      var rest := cs[1..];
      RestDisconnected(cs);
      IdleRunSleeps(s, rest, wake);
      var k := FirstExpired(s.lastConnectedTime, rest);
      assert rest[k] == cs[1 + k];
    }
  }

  /** Over a stretch of disconnected cycles nothing is called until the first
      cycle past the timeout, which enters deep sleep exactly once; if no
      cycle is past it, nothing is called at all. */
  lemma IdleRun(s: State, cs: seq<Cycle>, wake: Pin)
    requires AllWellFormed(cs) && AllDisconnected(cs)
    ensures var k := FirstExpired(s.lastConnectedTime, cs);
      Run(s, cs, wake) == if k < |cs| then SleepActions(wake, cs[k].pullupOk, cs[k].wakeOk) else []
  {
    if FirstExpired(s.lastConnectedTime, cs) < |cs| {
      IdleRunSleeps(s, cs, wake);
    } else {
      IdleRunQuiet(s, cs, wake);
    }
  }

  /** A connected cycle restarts the timeout: after it, the sleep comes at the
      first disconnected cycle more than SLEEP_AFTER_MS after that cycle,
      whatever the timer held before. */
  lemma ReconnectRestartsTimer(s: State, c: Cycle, cs: seq<Cycle>, wake: Pin)
    requires WellFormed(c) && c.connected
    requires AllWellFormed(cs) && AllDisconnected(cs)
    ensures AllWellFormed([c] + cs)
    ensures var k := FirstExpired(c.now, cs);
      Run(s, [c] + cs, wake)
        == Emitted(s, c, wake) + (if k < |cs| then SleepActions(wake, cs[k].pullupOk, cs[k].wakeOk) else [])
  {
    var all := [c] + cs;
    assert all[0] == c && all[1..] == cs;
    assert AllWellFormed(all) by {
      assert forall i :: 1 <= i < |all| ==> all[i] == cs[i - 1];
    }
    ConnectedCycleState(s, c);
    IdleRun(NextState(s, c), cs, wake);
  }

  /** Connected at time 0, then disconnected: the cycles at 59999 ms and
      60000 ms call nothing, the cycle at 60001 ms sleeps. */
  lemma IdleTimeoutScenario(s: State, c: Cycle, at59999: Cycle, at60000: Cycle, at60001: Cycle, wake: Pin)
    requires WellFormed(c) && c.connected && c.now == 0
    requires at59999 == Cycle(false, 59999, c.edges, c.dirLevels, true, true)
    requires at60000 == at59999.(now := 60000)
    requires at60001 == at59999.(now := 60001)
    ensures Run(s, [c, at59999, at60000, at60001], wake) == Emitted(s, c, wake) + SleepActions(wake, true, true)
  {
    var cs := [at59999, at60000, at60001];
    assert [c, at59999, at60000, at60001] == [c] + cs;
    assert FirstExpired(0, cs) == 2 by {
      IdleBoundary();
      var rest := cs[1..];
      assert rest == [at60000, at60001];
      assert rest[1..] == [at60001];
      assert FirstExpired(0, rest[1..]) == 0;
      assert FirstExpired(0, rest) == 1 + FirstExpired(0, rest[1..]);
      assert FirstExpired(0, cs) == 1 + FirstExpired(0, rest);
    }
    ReconnectRestartsTimer(s, c, cs, wake);
  }
}
