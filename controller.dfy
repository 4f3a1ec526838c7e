/** One cycle of the controller (`loop()`): the idle/sleep timer, the button
    mapper, the direction translator and the report coalescer together. */
module Controller {
  import opened Config
  import opened Sink
  import opened Direction
  import opened Buttons
  import opened Sleep

  /** The function-static state of `loop()`. */
  datatype State = State(lastConnectedTime: Millis, lastX: Int8, lastY: Int8)

  /** What one cycle observes: the sink's connection state, the clock, the
      edge each debouncer would report after `update()`, the direction pin
      levels, and the results of the two sleep-arming calls should it sleep. */
  datatype Cycle = Cycle(connected: bool, now: Millis, edges: seq<Bounce>, dirLevels: seq<Level>,
                         pullupOk: bool, wakeOk: bool)

  /** One edge per debouncer and one level per direction pin. */
  predicate WellFormed(c: Cycle) {
    |c.edges| == BUTTON_COUNT && |c.dirLevels| == DIR_COUNT
  }

  function LastVec(s: State): Vec {
    Vec(s.lastX, s.lastY)
  }

  /** The stored direction is always one the translator can produce. */
  predicate ValidState(s: State) {
    InRange(LastVec(s))
  }

  /** The statics on the first call: the clock then, and a centred stick. */
  function Initial(now: Millis): (s: State)
    ensures ValidState(s) && LastVec(s) == HatVector(Centered)
  {
    State(now, 0, 0)
  }

  /** A disconnected cycle past the idle timeout. */
  predicate Sleeps(s: State, c: Cycle) {
    !c.connected && IdleExpired(c.now, s.lastConnectedTime)
  }

  /** The direction pair differs from the stored one. */
  predicate StickMoved(s: State, c: Cycle)
    requires WellFormed(c)
  {
    Stick(c.dirLevels) != LastVec(s)
  }

  /** The statics after one cycle. */
  function NextState(s: State, c: Cycle): (t: State)
    requires WellFormed(c)
    ensures c.connected ==> ValidState(t)
    ensures ValidState(s) ==> ValidState(t)
  {
    if !c.connected then s
    else
      var v := Stick(c.dirLevels);
      State(c.now, v.x, v.y)
  }

  /** The `setHat1` call of a connected cycle, if the pair moved. */
  function HatCall(s: State, c: Cycle): seq<Action>
    requires WellFormed(c)
  {
    var v := Stick(c.dirLevels);
    if StickMoved(s, c) then [SetHat(HatOf(v.x, v.y))] else []
  }

  /** The `sendReport()` call of a connected cycle, if anything changed. */
  function ReportCall(s: State, c: Cycle): seq<Action>
    requires WellFormed(c)
  {
    if AnyEdge(c.edges) || StickMoved(s, c) then [SendReport] else []
  }

  /** The calls one cycle makes, in order. */
  function Emitted(s: State, c: Cycle, wake: Pin): seq<Action>
    requires WellFormed(c)
  {
    if !c.connected then
      (if Sleeps(s, c) then SleepActions(wake, c.pullupOk, c.wakeOk) else [])
    else
      ButtonActions(PHYSICAL_BUTTONS, c.edges) + HatCall(s, c) + ReportCall(s, c)
  }

  /** The controller's statics and its wake pin. */
  class Controller {
    var lastConnectedTime: Millis
    var lastX: Int8
    var lastY: Int8
    const wakeGpio: Pin

    function Model(): State
      reads this
    {
      State(lastConnectedTime, lastX, lastY)
    }

    ghost predicate Valid()
      reads this
    {
      ValidState(Model())
    }

    /** The statics as the first call of `loop()` initialises them. */
    constructor (now: Millis, wakeGpio: Pin)
      ensures Valid() && Model() == Initial(now) && this.wakeGpio == wakeGpio
    {
      lastConnectedTime := now;
      lastX, lastY := 0, 0;
      this.wakeGpio := wakeGpio;
    }

    /** One call of `loop()`. */
    method Step(c: Cycle) returns (acts: seq<Action>)
      requires Valid() && WellFormed(c)
      modifies this
      ensures Valid()
      ensures Model() == NextState(old(Model()), c)
      ensures acts == Emitted(old(Model()), c, wakeGpio)
    {
      if !c.connected {
        var idleFor := Elapsed(c.now, lastConnectedTime);
        if idleFor > SLEEP_AFTER_MS {
          acts := DeepSleep(wakeGpio, c.pullupOk, c.wakeOk);
        } else {
          acts := [];
        }
        return;
      }

      lastConnectedTime := c.now;
      var sendReport;
      acts, sendReport := MapButtons(PHYSICAL_BUTTONS, c.edges);
      ghost var buttons := acts;

      var x := Axis(c.dirLevels[DIR_RIGHT], c.dirLevels[DIR_LEFT]);
      var y := Axis(c.dirLevels[DIR_DOWN], c.dirLevels[DIR_UP]);
      if x != lastX || y != lastY {
        lastX := x;
        lastY := y;
        sendReport := true;
        var hat := HatOf(x, y);
        acts := acts + [SetHat(hat)];
      }
      assert acts == buttons + HatCall(old(Model()), c);

      if sendReport {
        acts := acts + [SendReport];
      }
    }
  }

  /** The hats of the `setHat1` calls among `acts`, in order. */
  function HatsSet(acts: seq<Action>): seq<Hat>
    decreases |acts|
  {
    if acts == [] then []
    else (if acts[0].SetHat? then [acts[0].hat] else []) + HatsSet(acts[1..])
  }

  lemma {:induction false} HatsSetAppend(a: seq<Action>, b: seq<Action>)
    ensures HatsSet(a + b) == HatsSet(a) + HatsSet(b)
    decreases |a|
  {
    if a == [] {
      assert a + b == b;
    } else {
      assert (a + b)[0] == a[0];
      assert (a + b)[1..] == a[1..] + b;
      HatsSetAppend(a[1..], b);
    }
  }

  lemma {:induction false} HatsSetNone(a: seq<Action>)
    requires forall x :: x in a ==> !x.SetHat?
    ensures HatsSet(a) == []
    decreases |a|
  {
    if a != [] {
      assert forall x :: x in a[1..] ==> x in a;
      HatsSetNone(a[1..]);
    }
  }

  /** After the button calls of a connected cycle come only the hat and
      report calls. */
  lemma TailCalls(s: State, c: Cycle)
    requires WellFormed(c)
    ensures forall a :: a in HatCall(s, c) + ReportCall(s, c) ==> a.SetHat? || a.SendReport?
  {
  }

  /** A disconnected cycle leaves the statics alone; it makes the sleep
      calls if the idle timeout has passed and no call otherwise. */
  lemma DisconnectedCycle(s: State, c: Cycle, wake: Pin)
    requires WellFormed(c) && !c.connected
    ensures NextState(s, c) == s
    ensures Emitted(s, c, wake) == if IdleExpired(c.now, s.lastConnectedTime)
                                   then SleepActions(wake, c.pullupOk, c.wakeOk) else []
  {
  }

  /** A disconnected cycle makes no button, hat or report call. */
  lemma DisconnectedNoReport(s: State, c: Cycle, wake: Pin)
    requires WellFormed(c) && !c.connected
    ensures forall a :: a in Emitted(s, c, wake) ==> !IsReportAction(a)
  {
    SleepCallsOnly(wake, c.pullupOk, c.wakeOk);
  }

  /** A disconnected cycle reads no debouncer and no direction pin: its
      outcome is the same whatever they would have reported. */
  lemma DisconnectedIgnoresInputs(s: State, c: Cycle, edges: seq<Bounce>, levels: seq<Level>, wake: Pin)
    requires WellFormed(c) && !c.connected
    requires |edges| == BUTTON_COUNT && |levels| == DIR_COUNT
    ensures var c' := c.(edges := edges, dirLevels := levels);
      NextState(s, c') == NextState(s, c) && Emitted(s, c', wake) == Emitted(s, c, wake)
  {
  }

  /** A connected cycle never sleeps. */
  lemma ConnectedNeverSleeps(s: State, c: Cycle, wake: Pin)
    requires WellFormed(c) && c.connected
    ensures DeepSleepStart !in Emitted(s, c, wake)
  {
    var buttons := ButtonActions(PHYSICAL_BUTTONS, c.edges);
    var tail := HatCall(s, c) + ReportCall(s, c);
    ButtonActionsIds(PHYSICAL_BUTTONS, c.edges);
    TailCalls(s, c);
    assert Emitted(s, c, wake) == buttons + tail;
    assert DeepSleepStart !in buttons && DeepSleepStart !in tail;
  }

  /** A cycle enters deep sleep iff it is disconnected and more than
      SLEEP_AFTER_MS have passed, modulo 2^32, since the last connected cycle. */
  lemma SleepIff(s: State, c: Cycle, wake: Pin)
    requires WellFormed(c)
    ensures DeepSleepStart in Emitted(s, c, wake) <==> !c.connected && Elapsed(c.now, s.lastConnectedTime) > SLEEP_AFTER_MS
  {
    if c.connected {
      ConnectedNeverSleeps(s, c, wake);
    } else if Sleeps(s, c) {
      var sleep := SleepActions(wake, c.pullupOk, c.wakeOk);
      assert Emitted(s, c, wake) == sleep;
      SleepLast(wake, c.pullupOk, c.wakeOk);
      assert sleep[|sleep| - 1] in sleep;
    }
  }

  /** Every connected cycle restarts the idle timer and stores the new
      direction pair. */
  lemma ConnectedCycleState(s: State, c: Cycle)
    requires WellFormed(c) && c.connected
    ensures NextState(s, c).lastConnectedTime == c.now
    ensures LastVec(NextState(s, c)) == Stick(c.dirLevels)
    ensures !StickMoved(s, c) ==> NextState(s, c) == s.(lastConnectedTime := c.now)
  {
  }

  /** A connected cycle calls `setHat1` once, with the hat of the new pair,
      iff the pair changed, and not at all otherwise. From a valid state the
      pair changed iff its hat differs from the hat of the stored pair. */
  lemma HatUpdate(s: State, c: Cycle, wake: Pin)
    requires WellFormed(c) && c.connected
    ensures var v := Stick(c.dirLevels);
      HatsSet(Emitted(s, c, wake)) == if StickMoved(s, c) then [HatOf(v.x, v.y)] else []
    ensures ValidState(s) ==>
      (StickMoved(s, c) <==> HatOf(Stick(c.dirLevels).x, Stick(c.dirLevels).y) != HatOf(s.lastX, s.lastY))
  {
    var v := Stick(c.dirLevels);
    var buttons := ButtonActions(PHYSICAL_BUTTONS, c.edges);
    var hat := HatCall(s, c);
    var report := ReportCall(s, c);
    ButtonActionsIds(PHYSICAL_BUTTONS, c.edges);
    HatsSetNone(buttons);
    HatsSetNone(report);
    HatsSetAppend(buttons, hat);
    HatsSetAppend(buttons + hat, report);
    assert HatsSet(hat) == if StickMoved(s, c) then [HatOf(v.x, v.y)] else [];
    if ValidState(s) {
      HatOfInjective(v, LastVec(s));
    }
  }

  /** A connected cycle makes at most one `sendReport()` call, as its last
      call, and makes it iff some button fell or rose or the direction pair
      changed. A disconnected cycle makes none. */
  lemma ReportCoalescing(s: State, c: Cycle, wake: Pin)
    requires WellFormed(c)
    ensures var acts := Emitted(s, c, wake);
      && multiset(acts)[SendReport] <= 1
      && (SendReport in acts <==> c.connected && (AnyEdge(c.edges) || StickMoved(s, c)))
      && (SendReport in acts ==> acts[|acts| - 1] == SendReport)
  {
    var acts := Emitted(s, c, wake);
    if c.connected {
      var front := ButtonActions(PHYSICAL_BUTTONS, c.edges) + HatCall(s, c);
      var report := ReportCall(s, c);
      assert acts == front + report;
      ButtonActionsIds(PHYSICAL_BUTTONS, c.edges);
      assert SendReport !in front;
      assert multiset(acts) == multiset(front) + multiset(report);
    } else {
      DisconnectedNoReport(s, c, wake);
      assert SendReport !in acts;
    }
  }

  /** In a connected cycle, button i is pressed once iff it fell, released
      once iff it rose without falling, and otherwise not mentioned; the
      press goes to the bank its logical id selects. */
  lemma ButtonsInCycle(s: State, c: Cycle, wake: Pin, i: nat)
    requires WellFormed(c) && c.connected && i < BUTTON_COUNT
    ensures var acts := Emitted(s, c, wake);
      var id := PHYSICAL_BUTTONS[i];
      && multiset(acts)[PressOf(id)] == (if c.edges[i].fell then 1 else 0)
      && multiset(acts)[ReleaseOf(id)] == (if !c.edges[i].fell && c.edges[i].rose then 1 else 0)
  {
    ConfigurationConsistent();
    TailCalls(s, c);
    var tail := HatCall(s, c) + ReportCall(s, c);
    assert Emitted(s, c, wake) == ButtonActions(PHYSICAL_BUTTONS, c.edges) + tail;
    ButtonActionsCountIn(PHYSICAL_BUTTONS, c.edges, i, tail);
  }

  /** Once a connected cycle has stored a direction pair, a later connected
      cycle that reads the same direction pins calls no `setHat1`. */
  lemma SteadyStick(s: State, c1: Cycle, c2: Cycle, wake: Pin)
    requires WellFormed(c1) && WellFormed(c2) && c1.connected && c2.connected
    requires c2.dirLevels == c1.dirLevels
    ensures HatsSet(Emitted(NextState(s, c1), c2, wake)) == []
  {
    HatUpdate(NextState(s, c1), c2, wake);
  }

  /** The statics start at a centred pair, so a centred stick on the first
      connected cycle calls no `setHat1`; with no button edge either, that
      cycle makes no call at all. */
  lemma FirstCycleCentered(now: Millis, c: Cycle, wake: Pin)
    requires WellFormed(c) && c.connected
    requires Stick(c.dirLevels) == Vec(0, 0)
    ensures HatsSet(Emitted(Initial(now), c, wake)) == []
    ensures !AnyEdge(c.edges) ==> Emitted(Initial(now), c, wake) == []
  {
    HatUpdate(Initial(now), c, wake);
    ButtonActionsEmpty(PHYSICAL_BUTTONS, c.edges);
  }
}
