/** The stopwatch widget: a counter of elapsed seconds, the re-entrancy guard
    that keeps its counting loop single, and the text it shows. */
module StopwatchWidget {
  import opened Duration

  /** Colours the reset button is built with, which are those of the light theme. */
  const LightResetColor: string := "#eeeef1"
  const LightResetBgcolor: string := "#43474e"

  /** The widget's counting state: `seconds_passed`, `running_clock_instances`
      and `is_clock_running`. The clock text is kept beside it, in the object. */
  datatype Watch = Watch(seconds: nat, instances: int, running: bool)

  /** The state a freshly built widget is in. */
  const Initial: Watch := Watch(0, 0, true)

  /** What holds of every state the widget can reach: at most one counting
      loop, and a loop only while the clock runs. */
  predicate Inv(w: Watch) {
    (w.instances == 0 || w.instances == 1) && (w.instances == 1 ==> w.running)
  }

  /** A counting loop has been entered and has not yet seen a stop. */
  predicate Armed(w: Watch) {
    w.instances == 1 && w.running
  }

  /** The number of counting loops alive: every loop entered since the last
      stop, for as long as the clock runs. */
  function Loops(w: Watch): (n: nat)
    ensures n > 0 <==> w.running && w.instances > 0
    ensures Inv(w) ==> (n == 1 <==> Armed(w)) && n <= 1
  {
    if w.running && w.instances > 0 then w.instances else 0
  }

  /** `start_watch` up to its loop: ignored while a loop is counting; otherwise
      the clock is marked running and the loop counted. From a valid state it
      always ends with exactly one loop armed. */
  function StartStep(w: Watch): (r: Watch)
    ensures r.seconds == w.seconds
    ensures w.instances == 1 ==> r == w
    ensures Inv(w) ==> Inv(r) && Armed(r)
  {
    if w.instances == 1 then w else w.(running := true, instances := w.instances + 1)
  }

  /** One second of the loops in `start_watch`: each live loop adds one. From a
      valid state the count rises by one exactly when a loop is armed. */
  function TickStep(w: Watch): (r: Watch)
    ensures r.instances == w.instances && r.running == w.running
    ensures r.seconds >= w.seconds
    ensures Inv(w) ==> Inv(r) && r.seconds == w.seconds + (if Armed(w) then 1 else 0)
  {
    w.(seconds := w.seconds + Loops(w))
  }

  /** `stop_watch`: no loop survives it and the count is kept. */
  function StopStep(w: Watch): (r: Watch)
    ensures r.seconds == w.seconds
    ensures !r.running && r.instances == 0
    ensures Inv(r) && !Armed(r) && Loops(r) == 0
  {
    w.(running := false, instances := 0)
  }

  /** `reset_watch`: the count goes back to zero, the loops are left alone. */
  function ResetStep(w: Watch): (r: Watch)
    ensures r.seconds == 0
    ensures r.instances == w.instances && r.running == w.running
    ensures Inv(w) ==> Inv(r)
  {
    w.(seconds := 0)
  }

  /** `k` passes of the loop, one abstract second each. */
  function Ticks(w: Watch, k: nat): Watch
    decreases k
  {
    if k == 0 then w else Ticks(TickStep(w), k - 1)
  }

  /** What the user can do to the widget, and one second passing. */
  datatype Event = StartPressed | StopPressed | ResetPressed | SecondPassed

  function Step(w: Watch, e: Event): Watch {
    match e
    case StartPressed => StartStep(w)
    case StopPressed => StopStep(w)
    case ResetPressed => ResetStep(w)
    case SecondPassed => TickStep(w)
  }

  function Run(w: Watch, events: seq<Event>): Watch
    decreases |events|
  {
    if events == [] then w else Run(Step(w, events[0]), events[1..])
  }

  // ---------------------------------------------------------------------------
  // Properties of the counting state
  // ---------------------------------------------------------------------------

  /** A new widget counts nothing and shows "0:00:00". */
  lemma InitialState()
    ensures Inv(Initial) && !Armed(Initial)
    ensures Initial.seconds == 0 && Initial.instances == 0 && Initial.running
    ensures Format(Initial.seconds) == "0:00:00"
  {
    FormatZero();
  }

  lemma StepKeepsInv(w: Watch, e: Event)
    requires Inv(w)
    ensures Inv(Step(w, e))
  {
  }

  /** However the buttons are pressed and however many seconds pass, the
      widget never has more than one loop, and a loop only while running. */
  lemma {:induction false} RunKeepsInv(w: Watch, events: seq<Event>)
    requires Inv(w)
    ensures Inv(Run(w, events))
    decreases |events|
  {
    if events != [] {
      StepKeepsInv(w, events[0]);
      RunKeepsInv(Step(w, events[0]), events[1..]);
    }
  }

  lemma ReachableInv(events: seq<Event>)
    ensures Inv(Run(Initial, events))
  {
    RunKeepsInv(Initial, events);
  }

  /** Pressing start while a loop is counting changes nothing, so pressing it
      twice is the same as pressing it once. */
  lemma StartWhileCountingIgnored(w: Watch)
    requires Inv(w)
    ensures w.instances == 1 ==> StartStep(w) == w
    ensures StartStep(StartStep(w)) == StartStep(w)
  {
  }

  /** Start from a stopped widget arms exactly one loop and keeps the count. */
  lemma StartArms(w: Watch)
    requires Inv(w) && w.instances == 0
    ensures var v := StartStep(w);
      Armed(v) && v.instances == 1 && v.seconds == w.seconds
  {
  }

  /** While armed, each second adds exactly one and the loop stays armed. */
  lemma TickWhileArmed(w: Watch)
    requires Armed(w)
    ensures TickStep(w).seconds == w.seconds + 1
    ensures Armed(TickStep(w))
  {
  }

  /** Over `k` seconds an armed widget counts exactly `k`, and nothing else changes. */
  lemma {:induction false} TicksWhileArmed(w: Watch, k: nat)
    requires Armed(w)
    ensures Ticks(w, k) == w.(seconds := w.seconds + k)
    decreases k
  {
    if k > 0 {
      TicksWhileArmed(TickStep(w), k - 1);
    }
  }

  /** A widget with no live loop does not count, however long one waits. */
  lemma {:induction false} TicksWhileIdle(w: Watch, k: nat)
    requires Loops(w) == 0
    ensures Ticks(w, k) == w
    decreases k
  {
    if k > 0 {
      TicksWhileIdle(TickStep(w), k - 1);
    }
  }

  lemma {:induction false} TicksSplit(w: Watch, a: nat, b: nat)
    ensures Ticks(w, a + b) == Ticks(Ticks(w, a), b)
    decreases a
  {
    if a > 0 {
      TicksSplit(TickStep(w), a - 1, b);
    }
  }

  lemma TicksOneMore(w: Watch, k: nat)
    ensures Ticks(w, k + 1) == TickStep(Ticks(w, k))
  {
    TicksSplit(w, k, 1);
  }

  /** Pressing start twice counts exactly as fast as pressing it once. */
  lemma NoDoubleSpeed(w: Watch, k: nat)
    requires Inv(w)
    ensures Ticks(StartStep(StartStep(w)), k) == Ticks(StartStep(w), k)
    ensures Ticks(StartStep(StartStep(w)), k).seconds == w.seconds + k
  {
    TicksWhileArmed(StartStep(w), k);
  }

  /** Stop keeps the count, freezes it, and leaves the widget ready to start again. */
  lemma StopFreezes(w: Watch, k: nat)
    ensures StopStep(w).seconds == w.seconds
    ensures Ticks(StopStep(w), k) == StopStep(w)
    ensures Armed(StartStep(StopStep(w))) && StartStep(StopStep(w)).seconds == w.seconds
  {
    TicksWhileIdle(StopStep(w), k);
  }

  /** Reset shows "0:00:00", keeps both running flags, and is idempotent. */
  lemma ResetClears(w: Watch)
    ensures var v := ResetStep(w);
      v.seconds == 0 && Format(v.seconds) == "0:00:00"
      && v.instances == w.instances && v.running == w.running
      && ResetStep(v) == v
  {
    FormatZero();
  }

  /** A counting widget that is reset counts on from zero. */
  lemma ResetWhileCounting(w: Watch, k: nat)
    requires Armed(w)
    ensures Ticks(ResetStep(w), k).seconds == k
    ensures Armed(Ticks(ResetStep(w), k))
  {
    TicksWhileArmed(ResetStep(w), k);
  }

  /** Start, five seconds, stop, three seconds, reset. */
  lemma StartStopResetScenario()
    ensures var started := Ticks(StartStep(Initial), 5);
      var stopped := Ticks(StopStep(started), 3);
      Format(started.seconds) == "0:00:05"
      && Format(stopped.seconds) == "0:00:05"
      && Format(ResetStep(stopped).seconds) == "0:00:00"
  {
    StartStopCounts(5, 3);
    FormatFiveSeconds();
    FormatZero();
  }

  /** Start, `a` seconds and stop keep `a`, however many seconds `b` follow. */
  lemma StartStopCounts(a: nat, b: nat)
    ensures Ticks(StartStep(Initial), a).seconds == a
    ensures Ticks(StopStep(Ticks(StartStep(Initial), a)), b).seconds == a
  {
    var armed := StartStep(Initial);
    TicksWhileArmed(armed, a);
    TicksWhileIdle(StopStep(Ticks(armed, a)), b);
  }

  // ---------------------------------------------------------------------------
  // The widget object
  // ---------------------------------------------------------------------------

  /** `Stopwatch`: the counting fields, the clock text, and the attributes the
      application shell writes (its visibility and the reset button's colours). */
  class Stopwatch {
    var secondsPassed: nat
    var runningClockInstances: int
    var isClockRunning: bool
    var clockText: string
    var visible: bool
    var resetColor: string
    var resetBgcolor: string

    function State(): Watch
      reads this
    {
      Watch(secondsPassed, runningClockInstances, isClockRunning)
    }

    /** The object invariant: `Inv`, and the clock text shows the count. */
    ghost predicate Valid()
      reads this
    {
      Inv(State()) && clockText == Format(secondsPassed)
    }

    constructor ()
      ensures Valid() && State() == Initial
      ensures clockText == "0:00:00" && secondsPassed == 0
      ensures runningClockInstances == 0 && isClockRunning
      ensures visible && resetColor == LightResetColor && resetBgcolor == LightResetBgcolor
    {
      clockText := Format(0);
      resetColor, resetBgcolor := LightResetColor, LightResetBgcolor;
      visible := true;
      secondsPassed := 0;
      runningClockInstances := 0;
      isClockRunning := true;
      new;
      InitialState();
    }

    /** `start_watch` up to its loop; the loop itself is `Tick`. */
    method StartWatch()
      requires Valid()
      modifies this`runningClockInstances, this`isClockRunning
      ensures Valid() && State() == StartStep(old(State()))
      ensures old(runningClockInstances) == 1 ==> State() == old(State())
      ensures runningClockInstances == 1 && isClockRunning
    {
      if runningClockInstances == 1 {
        return;
      }
      if !isClockRunning {
        isClockRunning := true;
      }
      runningClockInstances := runningClockInstances + 1;
    }

    /** One pass of the `while self.is_clock_running` loop of `start_watch`. */
    method Tick()
      requires Valid()
      modifies this`secondsPassed, this`clockText
      ensures Valid() && State() == TickStep(old(State()))
      ensures old(Armed(State())) ==> secondsPassed == old(secondsPassed) + 1
      ensures !old(Armed(State())) ==> secondsPassed == old(secondsPassed)
      ensures clockText == Format(secondsPassed)
    {
      if runningClockInstances == 1 && isClockRunning {
        secondsPassed := secondsPassed + 1;
        clockText := Format(secondsPassed);
      }
    }

    /** `k` passes of that loop: `k` seconds going by. */
    method Elapse(k: nat)
      requires Valid()
      modifies this`secondsPassed, this`clockText
      ensures Valid() && State() == Ticks(old(State()), k)
      ensures old(Armed(State())) ==> secondsPassed == old(secondsPassed) + k
      ensures !old(Armed(State())) ==> secondsPassed == old(secondsPassed)
    {
      var i := 0;
      while i < k
        invariant i <= k && Valid()
        invariant State() == Ticks(old(State()), i)
      {
        TicksOneMore(old(State()), i);
        Tick();
        i := i + 1;
      }
      if old(Armed(State())) {
        TicksWhileArmed(old(State()), k);
      } else {
        TicksWhileIdle(old(State()), k);
      }
    }

    /** `stop_watch` */
    method StopWatch()
      requires Valid()
      modifies this`runningClockInstances, this`isClockRunning
      ensures Valid() && State() == StopStep(old(State()))
      ensures !isClockRunning && runningClockInstances == 0
      ensures secondsPassed == old(secondsPassed) && clockText == old(clockText)
    {
      isClockRunning := false;
      runningClockInstances := 0;
    }

    /** `reset_watch` */
    method ResetWatch()
      requires Valid()
      modifies this`secondsPassed, this`clockText
      ensures Valid() && State() == ResetStep(old(State()))
      ensures secondsPassed == 0 && clockText == "0:00:00"
    {
      secondsPassed := 0;
      clockText := Format(secondsPassed);
      FormatZero();
    }
  }
}
