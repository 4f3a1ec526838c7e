/** The idle timer arithmetic and the deep-sleep entry sequence. */
module Sleep {
  import opened Config
  import opened Sink

  /** `millis() - lastConnectedTime` in `unsigned long` arithmetic: the time
      since `since`, correct across one wrap of the 32-bit clock. */
  function Elapsed(now: Millis, since: Millis): (d: Millis)
    ensures (since + d) % MILLIS_MODULUS == now
    ensures since <= now ==> d == now - since
    ensures now < since ==> d == now + MILLIS_MODULUS - since
  {
    (now - since) % MILLIS_MODULUS
  }

  /** The sleep condition `idleFor > SLEEP_AFTER_MS` (strict). */
  predicate IdleExpired(now: Millis, since: Millis) {
    Elapsed(now, since) > SLEEP_AFTER_MS
  }

  /** At exactly SLEEP_AFTER_MS there is no sleep yet, one millisecond later
      there is, also when the clock wrapped in between. */
  lemma IdleBoundary()
    ensures !IdleExpired(59999, 0) && !IdleExpired(60000, 0) && IdleExpired(60001, 0)
    ensures !IdleExpired(59000, MILLIS_MODULUS - 1000)
    ensures IdleExpired(59001, MILLIS_MODULUS - 1000)
  {
  }

  /** Every pin the sleep entry reverts, in order: extra grounds, buttons, directions. */
  const SLEEP_REVERTED_PINS: seq<Pin> := EXTRA_GROUNDS + BUTTON_PINS + DIRECTION_PINS

  /** `pinMode(p, INPUT)` for each pin of `pins`, in order. */
  function Reverts(pins: seq<Pin>): seq<Action>
    decreases |pins|
  {
    if pins == [] then [] else Reverts(pins[..|pins| - 1]) + [RevertToInput(pins[|pins| - 1])]
  }

  /** `Reverts` distributes over concatenation of pin tables. */
  lemma {:induction false} RevertsAppend(a: seq<Pin>, b: seq<Pin>)
    ensures Reverts(a + b) == Reverts(a) + Reverts(b)
    decreases |b|
  {
    if b == [] {
      assert a + b == a;
    } else {
      var n := |b| - 1;
      assert (a + b)[..|a + b| - 1] == a + b[..n];
      assert (a + b)[|a + b| - 1] == b[n];
      RevertsAppend(a, b[..n]);
    }
  }

  /** `Reverts` makes exactly one `INPUT` call per pin of its table, in order. */
  lemma {:induction false} RevertsAt(pins: seq<Pin>)
    ensures |Reverts(pins)| == |pins|
    ensures forall k :: 0 <= k < |pins| ==> Reverts(pins)[k] == RevertToInput(pins[k])
    decreases |pins|
  {
    if pins != [] {
      var n := |pins| - 1;
      RevertsAt(pins[..n]);
      assert forall k :: 0 <= k < n ==> pins[..n][k] == pins[k];
    }
  }

  /** The wake arming and the sleep call, given whether the pull-up and the
      wake-up arming succeeded; a failure adds a log line. */
  function ArmAndSleep(wake: Pin, pullupOk: bool, wakeOk: bool): seq<Action> {
    [EnablePullup(wake)] + (if pullupOk then [] else [LogError(PullupFailed)])
    + [EnableGpioWakeLow(wake)] + (if wakeOk then [] else [LogError(GpioWakeupFailed)])
    + [DeepSleepStart]
  }

  /** The calls of `deepSleep()`. */
  function SleepActions(wake: Pin, pullupOk: bool, wakeOk: bool): seq<Action> {
    [End] + Reverts(SLEEP_REVERTED_PINS) + ArmAndSleep(wake, pullupOk, wakeOk)
  }

  /** One of the three reverting loops of `deepSleep()`: `pinMode(p, INPUT)`
      for each pin of the table, appended to the calls made so far. */
  method RevertPins(pins: seq<Pin>, before: seq<Action>) returns (acts: seq<Action>)
    ensures acts == before + Reverts(pins)
  {
    acts := before;
    for i := 0 to |pins|
      invariant acts == before + Reverts(pins[..i])
    {
      acts := acts + [RevertToInput(pins[i])];
      assert pins[..i + 1][..i] == pins[..i];
    }
    assert pins[..|pins|] == pins;
  }

  /** `deepSleep()`: shut the gamepad down, revert the three pin tables to
      plain inputs, arm the wake pin, and sleep whatever the arming returned. */
  method DeepSleep(wake: Pin, pullupOk: bool, wakeOk: bool) returns (acts: seq<Action>)
    ensures acts == SleepActions(wake, pullupOk, wakeOk)
  {
    acts := RevertPins(EXTRA_GROUNDS, [End]);
    acts := RevertPins(BUTTON_PINS, acts);
    acts := RevertPins(DIRECTION_PINS, acts);
    RevertsAppend(EXTRA_GROUNDS, BUTTON_PINS);
    RevertsAppend(EXTRA_GROUNDS + BUTTON_PINS, DIRECTION_PINS);
    ghost var reverted := acts;
    assert reverted == [End] + Reverts(SLEEP_REVERTED_PINS);

    acts := acts + [EnablePullup(wake)];
    if !pullupOk {
      acts := acts + [LogError(PullupFailed)];
    }
    acts := acts + [EnableGpioWakeLow(wake)];
    if !wakeOk {
      acts := acts + [LogError(GpioWakeupFailed)];
    }
    acts := acts + [DeepSleepStart];
    assert acts == reverted + ArmAndSleep(wake, pullupOk, wakeOk);
  }

  /** `Reverts` makes INPUT calls and nothing else. */
  lemma {:induction false} RevertsOnly(pins: seq<Pin>)
    ensures forall a :: a in Reverts(pins) ==> a.RevertToInput?
    decreases |pins|
  {
    if pins != [] {
      RevertsOnly(pins[..|pins| - 1]);
    }
  }

  /** The arming part starts with the pull-up, attempts the low-level wake,
      and ends with the sleep call, which it makes once. */
  lemma ArmEnds(wake: Pin, pullupOk: bool, wakeOk: bool)
    ensures var arm := ArmAndSleep(wake, pullupOk, wakeOk);
      && arm[0] == EnablePullup(wake)
      && EnableGpioWakeLow(wake) in arm
      && arm[|arm| - 1] == DeepSleepStart
      && multiset(arm)[DeepSleepStart] == 1
  {
    var p: seq<Action> := if pullupOk then [] else [LogError(PullupFailed)];
    var w: seq<Action> := if wakeOk then [] else [LogError(GpioWakeupFailed)];
    var front := [EnablePullup(wake)] + p + [EnableGpioWakeLow(wake)] + w;
    assert ArmAndSleep(wake, pullupOk, wakeOk) == front + [DeepSleepStart];
    assert front[0] == EnablePullup(wake);
    assert EnableGpioWakeLow(wake) in front;
    assert DeepSleepStart !in front;
    LastOnce(front, DeepSleepStart);
  }

  /** An element appended to a sequence that lacks it is last and occurs once. */
  lemma LastOnce<T>(front: seq<T>, x: T)
    requires x !in front
    ensures (front + [x])[|front|] == x
    ensures multiset(front + [x])[x] == 1
  {
    assert multiset(front + [x]) == multiset(front) + multiset([x]);
  }

  /** The arming part logs a failure exactly when the call failed. */
  lemma ArmLogs(wake: Pin, pullupOk: bool, wakeOk: bool)
    ensures LogError(PullupFailed) in ArmAndSleep(wake, pullupOk, wakeOk) <==> !pullupOk
    ensures LogError(GpioWakeupFailed) in ArmAndSleep(wake, pullupOk, wakeOk) <==> !wakeOk
  {
    var p: seq<Action> := if pullupOk then [] else [LogError(PullupFailed)];
    var w: seq<Action> := if wakeOk then [] else [LogError(GpioWakeupFailed)];
    assert ArmAndSleep(wake, pullupOk, wakeOk)
      == [EnablePullup(wake)] + p + [EnableGpioWakeLow(wake)] + w + [DeepSleepStart];
  }

  /** Every call of the sleep entry is one of the sleep calls, so none of
      them touches the gamepad report. */
  lemma SleepCallsOnly(wake: Pin, pullupOk: bool, wakeOk: bool)
    ensures forall a :: a in SleepActions(wake, pullupOk, wakeOk) ==> IsSleepAction(a) && !IsReportAction(a)
  {
    var r := Reverts(SLEEP_REVERTED_PINS);
    var p: seq<Action> := if pullupOk then [] else [LogError(PullupFailed)];
    var w: seq<Action> := if wakeOk then [] else [LogError(GpioWakeupFailed)];
    var arm := [EnablePullup(wake)] + p + [EnableGpioWakeLow(wake)] + w + [DeepSleepStart];
    assert ArmAndSleep(wake, pullupOk, wakeOk) == arm;
    RevertsOnly(SLEEP_REVERTED_PINS);
    forall a | a in [End] + r + arm ensures IsSleepAction(a) && !IsReportAction(a) {
      SleepIsNotReport(a);
    }
  }

  /** The calls before the arming: the gamepad is ended first, then every
      extra-ground, button and direction pin is reverted to INPUT, in table
      order. */
  lemma SleepHeadShape(head: seq<Action>)
    requires head == [End] + Reverts(SLEEP_REVERTED_PINS)
    ensures |head| == 1 + |SLEEP_REVERTED_PINS|
    ensures head[0] == End
    ensures forall k :: 0 <= k < |SLEEP_REVERTED_PINS| ==> head[1 + k] == RevertToInput(SLEEP_REVERTED_PINS[k])
  {
    RevertsAt(SLEEP_REVERTED_PINS);
  }

  /** The order of the sleep entry: the gamepad is ended first; every
      extra-ground, button and direction pin is reverted to INPUT, in table
      order, before the wake pin is touched; then the pull-up and the
      low-level wake are attempted on the wake pin. */
  lemma SleepOrder(wake: Pin, pullupOk: bool, wakeOk: bool)
    ensures var acts := SleepActions(wake, pullupOk, wakeOk);
      && var n := 1 + |SLEEP_REVERTED_PINS|;
      && |acts| > n
      && acts[0] == End
      && (forall k :: 0 <= k < |SLEEP_REVERTED_PINS| ==> acts[1 + k] == RevertToInput(SLEEP_REVERTED_PINS[k]))
      && acts[n] == EnablePullup(wake)
      && EnableGpioWakeLow(wake) in acts[n..]
  {
    var head := [End] + Reverts(SLEEP_REVERTED_PINS);
    var arm := ArmAndSleep(wake, pullupOk, wakeOk);
    var acts := head + arm;
    assert acts == SleepActions(wake, pullupOk, wakeOk);
    SleepHeadShape(head);
    ArmEnds(wake, pullupOk, wakeOk);
    var n := |head|;
    assert acts[n..] == arm;
    assert forall k :: 0 <= k < n ==> acts[k] == head[k];
  }

  /** A failed pull-up or wake-up arming is logged, and a log line appears
      for no other reason. */
  lemma SleepLogs(wake: Pin, pullupOk: bool, wakeOk: bool)
    ensures LogError(PullupFailed) in SleepActions(wake, pullupOk, wakeOk) <==> !pullupOk
    ensures LogError(GpioWakeupFailed) in SleepActions(wake, pullupOk, wakeOk) <==> !wakeOk
  {
    var head := [End] + Reverts(SLEEP_REVERTED_PINS);
    var arm := ArmAndSleep(wake, pullupOk, wakeOk);
    assert SleepActions(wake, pullupOk, wakeOk) == head + arm;
    RevertsOnly(SLEEP_REVERTED_PINS);
    assert LogError(PullupFailed) !in head && LogError(GpioWakeupFailed) !in head;
    ArmLogs(wake, pullupOk, wakeOk);
  }

  /** The sleep call comes last and only once, whatever the arming returned. */
  lemma SleepLast(wake: Pin, pullupOk: bool, wakeOk: bool)
    ensures var acts := SleepActions(wake, pullupOk, wakeOk);
      && acts[|acts| - 1] == DeepSleepStart
      && multiset(acts)[DeepSleepStart] == 1
  {
    var head := [End] + Reverts(SLEEP_REVERTED_PINS);
    var arm := ArmAndSleep(wake, pullupOk, wakeOk);
    var acts := head + arm;
    assert acts == SleepActions(wake, pullupOk, wakeOk);
    RevertsOnly(SLEEP_REVERTED_PINS);
    assert DeepSleepStart !in head;
    ArmEnds(wake, pullupOk, wakeOk);
    assert acts[|acts| - 1] == arm[|arm| - 1];
    assert multiset(acts) == multiset(head) + multiset(arm);
  }

  /** The calls with the failure logs taken out. */
  function WithoutLogs(acts: seq<Action>): seq<Action>
    decreases |acts|
  {
    if acts == [] then []
    else (if acts[0].LogError? then [] else [acts[0]]) + WithoutLogs(acts[1..])
  }

  lemma {:induction false} WithoutLogsAppend(a: seq<Action>, b: seq<Action>)
    ensures WithoutLogs(a + b) == WithoutLogs(a) + WithoutLogs(b)
    decreases |a|
  {
    if a == [] {
      assert a + b == b;
    } else {
      assert (a + b)[0] == a[0];
      assert (a + b)[1..] == a[1..] + b;
      WithoutLogsAppend(a[1..], b);
    }
  }

  lemma {:induction false} RevertsHaveNoLogs(pins: seq<Pin>)
    ensures WithoutLogs(Reverts(pins)) == Reverts(pins)
    decreases |pins|
  {
    if pins != [] {
      var n := |pins| - 1;
      RevertsHaveNoLogs(pins[..n]);
      WithoutLogsAppend(Reverts(pins[..n]), [RevertToInput(pins[n])]);
    }
  }

  /** The outcome of the pull-up and wake-up calls only adds log lines: apart
      from them the sleep entry is the same call sequence in every case. */
  lemma SleepOutcomesOnlyLog(wake: Pin, pullupOk: bool, wakeOk: bool)
    ensures WithoutLogs(SleepActions(wake, pullupOk, wakeOk)) == SleepActions(wake, true, true)
  {
    var r := Reverts(SLEEP_REVERTED_PINS);
    RevertsHaveNoLogs(SLEEP_REVERTED_PINS);
    WithoutLogsAppend([End], r);
    WithoutLogsAppend([End] + r, ArmAndSleep(wake, pullupOk, wakeOk));
    WithoutLogsAppend([End] + r, ArmAndSleep(wake, true, true));
    ArmWithoutLogs(wake, pullupOk, wakeOk);
  }

  lemma ArmWithoutLogs(wake: Pin, pullupOk: bool, wakeOk: bool)
    ensures WithoutLogs(ArmAndSleep(wake, pullupOk, wakeOk)) == ArmAndSleep(wake, true, true)
  {
    var p: seq<Action> := if pullupOk then [] else [LogError(PullupFailed)];
    var w: seq<Action> := if wakeOk then [] else [LogError(GpioWakeupFailed)];
    var s1 := [EnablePullup(wake)];
    var s2 := s1 + p;
    var s3 := s2 + [EnableGpioWakeLow(wake)];
    var s4 := s3 + w;
    assert ArmAndSleep(wake, pullupOk, wakeOk) == s4 + [DeepSleepStart];
    assert WithoutLogs(p) == [] by {
      if !pullupOk { assert p[1..] == []; }
    }
    assert WithoutLogs(w) == [] by {
      if !wakeOk { assert w[1..] == []; }
    }
    assert WithoutLogs(s1) == s1;
    assert WithoutLogs([EnableGpioWakeLow(wake)]) == [EnableGpioWakeLow(wake)];
    assert WithoutLogs([DeepSleepStart]) == [DeepSleepStart];
    WithoutLogsAppend(s1, p);
    WithoutLogsAppend(s2, [EnableGpioWakeLow(wake)]);
    WithoutLogsAppend(s3, w);
    WithoutLogsAppend(s4, [DeepSleepStart]);
  }
}
