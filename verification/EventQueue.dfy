/**
 The event queue: a monitor with one runner. Every critical section is one step; between the steps of
 the runner any number of posts, additions and removals of work and spurious wake-ups may happen.
 */
module EventQueue {
  import opened Bytes

  /** Events are told apart by a label; none of them is the null event. */
  type event = nat

  /** Where the runner is: about to enter `pop`, waiting, woken but without the lock, or in an event. */
  datatype Runner = Free | Asleep | Woken | Running(e: event) | Stopped

  datatype State = State(
    events: seq<event>,
    workCount: int,
    runner: Runner,
    posted: seq<event>,
    executed: seq<event>)

  const EMPTY: State := State([], 0, Free, [], [])

  datatype Step =
    | Post(e: event)
    | AddWork
    | RemoveWork
    | SpuriousWakeup
    | EnterPop
    | ResumePop
    | Finish

  predicate Enabled(s: State, step: Step) {
    match step
    case SpuriousWakeup => s.runner == Asleep
    case EnterPop => s.runner == Free
    case ResumePop => s.runner == Woken
    case Finish => s.runner.Running?
    case _ => true
  }

  /** `notify_one`: lost if nobody waits. */
  function Notify(r: Runner): Runner {
    if r == Asleep then Woken else r
  }

  /** The end of the critical section of `pop`: an event, the null event, or another round. */
  function Take(s: State): State {
    if s.events != [] then
      s.(events := s.events[1..], runner := Running(s.events[0]), executed := s.executed + [s.events[0]])
    else if s.workCount < 1 then s.(runner := Stopped)
    else s.(runner := Free)
  }

  function Next(s: State, step: Step): State
    requires Enabled(s, step)
  {
    match step
    case Post(e) => s.(events := s.events + [e], posted := s.posted + [e], runner := Notify(s.runner))
    case AddWork => s.(workCount := s.workCount + 1)
    case RemoveWork => s.(workCount := s.workCount - 1, runner := Notify(s.runner))
    case SpuriousWakeup => s.(runner := Woken)
    case EnterPop => if s.events == [] && s.workCount > 0 then s.(runner := Asleep) else Take(s)
    case ResumePop => Take(s)
    case Finish => s.(runner := Free)
  }

  // --- The monitor --------------------------------------------------------------------------

  class EventQueueImpl {
    var events: seq<event>
    var workCount: int
    ghost var runner: Runner
    ghost var posted: seq<event>
    ghost var executed: seq<event>

    ghost function Value(): State
      reads this
    {
      State(events, workCount, runner, posted, executed)
    }

    constructor ()
      ensures Value() == EMPTY
    {
      events, workCount := [], 0;
      runner, posted, executed := Free, [], [];
    }

    method Post(e: event)
      modifies this
      ensures Value() == Next(old(Value()), Step.Post(e))
    {
      events := events + [e];
      posted := posted + [e];
      runner := Notify(runner);
    }

    method AddWork()
      modifies this
      ensures Value() == Next(old(Value()), Step.AddWork)
    {
      workCount := workCount + 1;
    }

    method RemoveWork()
      modifies this
      ensures Value() == Next(old(Value()), Step.RemoveWork)
    {
      workCount := workCount - 1;
      runner := Notify(runner);
    }

    /** From taking the lock to the wait or to the end of the critical section. */
    method EnterPop() returns (popped: Option<event>, waiting: bool)
      requires runner == Free
      modifies this
      ensures Value() == Next(old(Value()), Step.EnterPop)
      ensures waiting <==> runner == Asleep
      ensures popped.Some? ==> runner == Running(popped.value)
    {
      waiting := events == [] && workCount > 0;
      if waiting {
        runner := Asleep;
        return None, true;
      }
      popped := TakeFront();
    }

    /** From the end of the wait, the lock taken again, to the end of the critical section. */
    method ResumePop() returns (popped: Option<event>)
      requires runner == Woken
      modifies this
      ensures Value() == Next(old(Value()), Step.ResumePop)
      ensures popped.Some? ==> runner == Running(popped.value)
    {
      popped := TakeFront();
    }

    method TakeFront() returns (popped: Option<event>)
      modifies this
      ensures Value() == Take(old(Value()))
      ensures popped == if old(events) != [] then Some(old(events[0])) else None
    {
      if events != [] {
        popped := Some(events[0]);
        events := events[1..];
        runner := Running(popped.value);
        executed := executed + [popped.value];
        return;
      } else if workCount < 1 {
        runner := Stopped;
        return None;
      }
      runner := Free;
      popped := None;
    }
  }

  // --- Every interleaving -------------------------------------------------------------------

  ghost predicate Possible(s: State, run: seq<Step>)
    decreases |run|
  {
    run != [] ==> Enabled(s, run[0]) && Possible(Next(s, run[0]), run[1..])
  }

  ghost function After(s: State, run: seq<Step>): State
    requires Possible(s, run)
    decreases |run|
  {
    if run == [] then s else After(Next(s, run[0]), run[1..])
  }

  /**
   A runner asleep has nothing to do, nothing posted is lost, repeated or out of order, and the event it is
   in is the last one executed.
   */
  ghost predicate Inv(s: State) {
    && (s.runner == Asleep ==> s.events == [] && s.workCount > 0)
    && s.executed + s.events == s.posted
    && (s.runner.Running? ==> s.executed != [] && s.executed[|s.executed| - 1] == s.runner.e)
  }

  lemma NextKeeps(s: State, step: Step)
    requires Inv(s) && Enabled(s, step)
    ensures Inv(Next(s, step))
  {
    if step.Post? {
      AppendAssociates(s.executed, s.events, [step.e]);
    } else if s.events != [] {
      AppendAssociates(s.executed, [s.events[0]], s.events[1..]);
      assert [s.events[0]] + s.events[1..] == s.events;
    }
  }

  lemma {:induction false} InvHolds(s: State, run: seq<Step>)
    requires Inv(s) && Possible(s, run)
    ensures Inv(After(s, run))
    decreases |run|
  {
    if run != [] {
      NextKeeps(s, run[0]);
      InvHolds(Next(s, run[0]), run[1..]);
    }
  }

  // --- What the calls account for -----------------------------------------------------------

  /** The events that the calls of a run post, in order. */
  function EventsPosted(run: seq<Step>): seq<event> {
    if run == [] then [] else (if run[0].Post? then [run[0].e] else []) + EventsPosted(run[1..])
  }

  function Count(run: seq<Step>, step: Step): nat {
    if run == [] then 0 else (if run[0] == step then 1 else 0) + Count(run[1..], step)
  }

  lemma {:induction false} RunCounts(s: State, run: seq<Step>)
    requires Possible(s, run)
    ensures After(s, run).posted == s.posted + EventsPosted(run)
    ensures After(s, run).workCount == s.workCount + Count(run, AddWork) - Count(run, RemoveWork)
    decreases |run|
  {
    if run == [] {
      AppendNothing(s.posted);
    } else {
      RunCounts(Next(s, run[0]), run[1..]);
      AppendAssociates(s.posted, if run[0].Post? then [run[0].e] else [], EventsPosted(run[1..]));
      AppendNothing(s.posted);
    }
  }

  /**
   The null event is returned exactly by a step of `pop` at an instant when the queue is empty and no
   work is left. The runner falls asleep exactly on entering `pop` with an empty queue and work left.
   */
  lemma StopsOnlyWhenIdle(s: State, step: Step)
    requires Inv(s) && Enabled(s, step) && s.runner != Stopped
    ensures Next(s, step).runner == Stopped <==>
            (step == EnterPop || step == ResumePop) && s.events == [] && s.workCount < 1
    ensures s.runner != Asleep ==>
              (Next(s, step).runner == Asleep <==> step == EnterPop && s.events == [] && s.workCount > 0)
  {
  }

  // --- No lost wake-up ----------------------------------------------------------------------

  /** The step the runner takes when nothing else happens. */
  function RunnerStep(s: State): Step
    requires s.runner != Asleep && s.runner != Stopped
  {
    match s.runner
    case Free => EnterPop
    case Woken => ResumePop
    case Running(_) => Finish
  }

  function Remaining(s: State): nat {
    2 * |s.events| + match s.runner case Free => 1 case Woken => 2 case Running(_) => 2 case _ => 0
  }

  /** The runner left alone until it sleeps or stops. */
  function Settle(s: State): State
    decreases Remaining(s)
  {
    if s.runner == Asleep || s.runner == Stopped then s else Settle(Next(s, RunnerStep(s)))
  }

  lemma {:induction false} SettleDrains(s: State)
    requires Inv(s) && s.runner != Stopped
    ensures var t := Settle(s);
            && t.events == [] && t.executed == t.posted == s.posted && t.workCount == s.workCount
            && t.runner == if s.workCount > 0 then Asleep else Stopped
    decreases Remaining(s)
  {
    AppendNothing(s.executed);
    if s.runner != Asleep {
      var t := Next(s, RunnerStep(s));
      NextKeeps(s, RunnerStep(s));
      if t.runner == Stopped {
        AppendNothing(t.executed);
      } else {
        SettleDrains(t);
      }
    }
  }

  /**
   No lost wake-up, in every interleaving, with spurious wake-ups: at any instant the events executed and
   those queued are the events that the calls have posted, in order; a runner asleep means an empty queue
   and more additions of work than removals; and unless the runner has stopped, left alone it executes
   everything posted so far and then sleeps if there are more additions than removals, stops otherwise.
   */
  lemma NoLostWakeup(run: seq<Step>)
    requires Possible(EMPTY, run)
    ensures var s, posted := After(EMPTY, run), EventsPosted(run);
            var left := Count(run, AddWork) - Count(run, RemoveWork);
            && s.executed + s.events == posted
            && (s.runner == Asleep ==> s.events == [] && left > 0)
            && (s.runner != Stopped ==>
                  && Settle(s).executed == posted
                  && Settle(s).runner == if left > 0 then Asleep else Stopped)
  {
    InvHolds(EMPTY, run);
    RunCounts(EMPTY, run);
    AppendNothing(EventsPosted(run));
    var s := After(EMPTY, run);
    if s.runner != Stopped {
      SettleDrains(s);
    }
  }

  /**
   The runner stops exactly by a step of `pop` at an instant when everything posted has been executed and
   the removals have caught up with the additions.
   */
  lemma StopsExactlyWhenDone(run: seq<Step>, step: Step)
    requires Possible(EMPTY, run) && Enabled(After(EMPTY, run), step) && After(EMPTY, run).runner != Stopped
    ensures var s := After(EMPTY, run);
            Next(s, step).runner == Stopped <==>
            && (step == EnterPop || step == ResumePop)
            && s.executed == EventsPosted(run) && Count(run, AddWork) <= Count(run, RemoveWork)
  {
    InvHolds(EMPTY, run);
    RunCounts(EMPTY, run);
    AppendNothing(EventsPosted(run));
    var s := After(EMPTY, run);
    StopsOnlyWhenIdle(s, step);
    AppendNothing(s.executed);
    assert |s.posted| == |s.executed| + |s.events|;
  }
}
