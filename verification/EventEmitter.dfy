/** The bounded queue that keeps job observers off the worker's path. */
module EventEmitter {
  import opened Basics

  const CAPACITY := 256

  /** An event, named by its place among all the events ever emitted. */
  type Event = nat

  /** The emitter's fields. Idle channels are numbered in the order they are made. */
  datatype Emitter = Emitter(pending: seq<Event>, running: bool, idle: nat, closed: set<nat>, dropped: nat)

  const NEW := Emitter([], false, 0, {0}, 0)

  // ---- the critical sections -------------------------------------------------------------------------

  predicate Accepts(e: Emitter) {
    |e.pending| < CAPACITY
  }

  /** The fields after an emit; a drain is started when `Starts` says so. */
  function Emitted(e: Emitter, event: Event): Emitter {
    if !Accepts(e) then e.(dropped := e.dropped + 1)
    else if e.running then e.(pending := e.pending + [event])
    else e.(pending := e.pending + [event], running := true, idle := e.idle + 1)
  }

  predicate Starts(e: Emitter) {
    Accepts(e) && !e.running
  }

  /** The fields after a drain took the next event, or found none and ended. */
  function Taken(e: Emitter): Emitter {
    if e.pending == [] then e.(running := false, closed := e.closed + {e.idle}) else e.(pending := e.pending[1..])
  }

  class Queue {
    var pending: seq<Event>
    var running: bool
    var idle: nat
    var closed: set<nat>
    var dropped: nat

    constructor ()
      ensures State() == NEW
    {
      pending, running, idle, closed, dropped := [], false, 0, {0}, 0;
    }

    function State(): Emitter
      reads this
    {
      Emitter(pending, running, idle, closed, dropped)
    }

    /** Queues the event or counts it as dropped; `start` tells the caller to start a drain. */
    method Emit(event: Event) returns (start: bool)
      modifies this
      ensures State() == Emitted(old(State()), event)
      ensures start == Starts(old(State()))
    {
      if |pending| >= CAPACITY {
        dropped := dropped + 1;
        return false;
      }
      pending := pending + [event];
      if running {
        return false;
      }
      running := true;
      idle := idle + 1;
      start := true;
    }

    /** Takes the next event, or ends the drain by closing the idle channel, which must still be open. */
    method Take() returns (next: Option<Event>)
      requires pending == [] ==> idle !in closed
      modifies this
      ensures State() == Taken(old(State()))
      ensures next == if old(pending) == [] then None else Some(old(pending)[0])
    {
      if pending == [] {
        running := false;
        closed := closed + {idle};
        return None;
      }
      next := Some(pending[0]);
      pending := pending[1..];
    }
  }

  // ---- all interleavings ---------------------------------------------------------------------------------

  /** A started drain: about to enter its critical section, or calling the observer. */
  datatype Drain = Entering | Observing(event: Event)

  /** A flush in progress: the channel it waits for, and how many events were accepted when it began. */
  datatype Flush = Flush(idle: nat, accepted: nat)

  datatype World = World(
    emitter: Emitter,
    drains: seq<Drain>,
    flushes: seq<Flush>,
    emitted: nat,
    accepted: seq<Event>,
    observed: seq<Event>)

  const START := World(NEW, [], [], 0, [], [])

  /** Emit: some worker emits the next event. Enter, Return: the drain at that place enters its critical section or
      returns from the observer. Begin: a flush reads the idle channel. */
  datatype Action = Emit | Enter(drain: nat) | Return(drain: nat) | Begin

  predicate Possible(w: World, a: Action) {
    match a
    case Emit => true
    case Enter(i) => i < |w.drains| && w.drains[i].Entering?
    case Return(i) => i < |w.drains| && w.drains[i].Observing?
    case Begin => true
  }

  function Next(w: World, a: Action): World
    requires Possible(w, a)
  {
    match a
    case Emit =>
      var event := w.emitted;
      w.(emitter := Emitted(w.emitter, event),
         drains := if Starts(w.emitter) then w.drains + [Entering] else w.drains,
         emitted := w.emitted + 1,
         accepted := if Accepts(w.emitter) then w.accepted + [event] else w.accepted)
    case Enter(i) =>
      w.(emitter := Taken(w.emitter),
         drains := if w.emitter.pending == [] then w.drains[..i] + w.drains[i + 1..]
                   else w.drains[i := Observing(w.emitter.pending[0])])
    case Return(i) => w.(drains := w.drains[i := Entering], observed := w.observed + [w.drains[i].event])
    case Begin => w.(flushes := w.flushes + [Flush(w.emitter.idle, |w.accepted|)])
  }

  predicate PossibleRun(w: World, run: seq<Action>)
    decreases |run|
  {
    run == [] || (Possible(w, run[0]) && PossibleRun(Next(w, run[0]), run[1..]))
  }

  function Run(w: World, run: seq<Action>): World
    requires PossibleRun(w, run)
    decreases |run|
  {
    if run == [] then w else Run(Next(w, run[0]), run[1..])
  }

  // ---- the invariant ---------------------------------------------------------------------------------------

  /** The events drains are calling the observer with. */
  function InHand(drains: seq<Drain>): seq<Event> {
    if |drains| == 1 && drains[0].Observing? then [drains[0].event] else []
  }

  predicate Increasing(events: seq<Event>) {
    forall i, j :: 0 <= i < j < |events| ==> events[i] < events[j]
  }

  /** Accepted events are observed, in hand or pending, in this order; what is not accepted is dropped. */
  predicate EventsInv(w: World) {
    && w.accepted == w.observed + InHand(w.drains) + w.emitter.pending
    && Increasing(w.accepted)
    && (forall i :: 0 <= i < |w.accepted| ==> w.accepted[i] < w.emitted)
    && w.emitted == w.emitter.dropped + |w.accepted|
    && |w.emitter.pending| <= CAPACITY
  }

  /** One drain while it runs and none otherwise; the current channel is open exactly then. */
  predicate DrainInv(w: World) {
    && |w.drains| == (if w.emitter.running then 1 else 0)
    && (w.emitter.pending != [] ==> w.emitter.running)
    && (w.emitter.idle in w.emitter.closed <==> !w.emitter.running)
    && (forall g :: g in w.emitter.closed ==> g <= w.emitter.idle)
  }

  predicate FlushInv(w: World) {
    forall i :: 0 <= i < |w.flushes| ==>
      && w.flushes[i].idle <= w.emitter.idle
      && w.flushes[i].accepted <= |w.accepted|
      && (w.flushes[i].idle in w.emitter.closed ==> w.flushes[i].accepted <= |w.observed|)
  }

  predicate Inv(w: World) {
    EventsInv(w) && DrainInv(w) && FlushInv(w)
  }

  lemma EnterKeepsInv(w: World, i: nat)
    requires Inv(w) && Possible(w, Enter(i))
    ensures Inv(Next(w, Enter(i)))
  {
    var v := Next(w, Enter(i));
    if w.emitter.pending == [] {
      assert v.drains == [] && v.accepted == v.observed;
    } else {
      var next := w.emitter.pending[0];
      assert v.drains == [Observing(next)];
      assert w.emitter.pending == [next] + v.emitter.pending;
    }
  }

  lemma ReturnKeepsInv(w: World, i: nat)
    requires Inv(w) && Possible(w, Return(i))
    ensures Inv(Next(w, Return(i)))
  {
    var v := Next(w, Return(i));
    assert v.drains == [Entering] && v.observed == w.observed + InHand(w.drains);
  }

  lemma StepKeepsInv(w: World, a: Action)
    requires Inv(w) && Possible(w, a)
    ensures Inv(Next(w, a))
  {
    match a
    case Emit =>
    case Enter(i) => EnterKeepsInv(w, i);
    case Return(i) => ReturnKeepsInv(w, i);
    case Begin =>
      assert w.emitter.idle in w.emitter.closed ==> |w.observed| == |w.accepted|;
  }

  lemma {:induction false} RunKeepsInv(w: World, run: seq<Action>)
    requires Inv(w) && PossibleRun(w, run)
    ensures Inv(Run(w, run))
    ensures w.accepted <= Run(w, run).accepted && w.flushes <= Run(w, run).flushes
    decreases |run|
  {
    if run != [] {
      StepKeepsInv(w, run[0]);
      RunKeepsInv(Next(w, run[0]), run[1..]);
    }
  }

  // ---- what every run promises -------------------------------------------------------------------------------

  /** Bounded, nothing unaccounted for, in order and at most once, and never two drains or a pending event without one. */
  lemma EveryRun(run: seq<Action>)
    requires PossibleRun(START, run)
    ensures var w := Run(START, run);
      && |w.emitter.pending| <= CAPACITY
      && w.emitted == w.emitter.dropped + |w.accepted|
      && w.observed <= w.accepted && Increasing(w.observed)
      && |w.drains| <= 1 && (w.emitter.pending != [] ==> |w.drains| == 1)
      && (w.drains == [] ==> w.observed == w.accepted)
  {
    RunKeepsInv(START, run);
  }

  /** Closing a closed channel would panic: a drain that ends finds its channel open. */
  lemma ChannelClosedOnce(run: seq<Action>, i: nat)
    requires PossibleRun(START, run) && Possible(Run(START, run), Enter(i))
    ensures Run(START, run).emitter.idle !in Run(START, run).emitter.closed
  {
    RunKeepsInv(START, run);
  }

  /** A flush that begins after `before` and finds its channel closed after `during`: all that was accepted before it
      began has been observed. */
  lemma FlushedIsObserved(before: seq<Action>, during: seq<Action>)
    requires PossibleRun(START, before) && PossibleRun(Next(Run(START, before), Begin), during)
    requires Run(START, before).emitter.idle in Run(Next(Run(START, before), Begin), during).emitter.closed
    ensures Run(START, before).accepted <= Run(Next(Run(START, before), Begin), during).observed
  {
    var w := Run(START, before);
    RunKeepsInv(START, before);
    var begun := Next(w, Begin);
    StepKeepsInv(w, Begin);
    RunKeepsInv(begun, during);
    var v := Run(begun, during);
    var flush := begun.flushes[|w.flushes|];
    assert v.flushes[|w.flushes|] == flush;
  }
}
