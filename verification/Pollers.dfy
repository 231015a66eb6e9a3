/**
 * The client's screen pollers: one background task per attached terminal, replaced, stopped
 * and ending on its own, in every interleaving.
 */
module Pollers {
  import opened Common

  type Pty = U64

  /** Running between two screens; saw the terminal's last screen; over. */
  datatype Phase = Running | Leaving | Over

  datatype Poller = Poller(pty: Pty, phase: Phase, listed: bool, aborted: bool)

  function Entry(tasks: map<Pty, nat>, pty: Pty): Option<nat> {
    if pty in tasks then Some(tasks[pty]) else None
  }

  // ----- the system -----

  datatype State = State(pollers: seq<Poller>, tasks: map<Pty, nat>, exited: set<Pty>)

  datatype Step =
    | Launch(pty: Pty)
    | List(task: nat)
    | Close(pty: Pty)
    | TearDown
    | Exit(pty: Pty)
    | SeeExit(task: nat)
    | Leave(task: nat)
    | Fail(task: nat)
    | Stop(task: nat)

  function Start(): State {
    State([], map[], {})
  }

  predicate In(s: State, i: nat, phase: Phase) {
    i < |s.pollers| && s.pollers[i].phase == phase
  }

  function Abort(pollers: seq<Poller>, tasks: set<nat>): (r: seq<Poller>)
    ensures |r| == |pollers|
    ensures forall i :: 0 <= i < |pollers| ==>
              r[i] == if i in tasks then pollers[i].(aborted := true) else pollers[i]
  {
    seq(|pollers|, i requires 0 <= i < |pollers| =>
      if i in tasks then pollers[i].(aborted := true) else pollers[i])
  }

  function Only(task: Option<nat>): set<nat> {
    if task.Some? then {task.value} else {}
  }

  lemma AbortOneMore(pollers: seq<Poller>, tasks: set<nat>, i: nat)
    ensures Abort(Abort(pollers, tasks), Only(Some(i))) == Abort(pollers, tasks + {i})
  {
  }

  function Next(s: State, step: Step): State {
    match step
    case Launch(pty) => s.(pollers := s.pollers + [Poller(pty, Running, false, false)])
    case List(i) =>
      if i < |s.pollers| && !s.pollers[i].listed then
        var pty := s.pollers[i].pty;
        var rest := Abort(s.pollers, Only(Entry(s.tasks, pty)));
        State(rest[i := rest[i].(listed := true)], s.tasks[pty := i], s.exited)
      else s
    case Close(pty) => s.(pollers := Abort(s.pollers, Only(Entry(s.tasks, pty))), tasks := s.tasks - {pty})
    case TearDown => s.(pollers := Abort(s.pollers, s.tasks.Values), tasks := map[])
    case Exit(pty) => s.(exited := s.exited + {pty})
    case SeeExit(i) =>
      // a task can be aborted only where it waits, so one that saw the last screen runs to its end
      if In(s, i, Running) && s.pollers[i].pty in s.exited
      then s.(pollers := s.pollers[i := s.pollers[i].(phase := Leaving)]) else s
    case Leave(i) =>
      if In(s, i, Leaving)
      then State(s.pollers[i := s.pollers[i].(phase := Over)], s.tasks - {s.pollers[i].pty}, s.exited) else s
    case Fail(i) =>
      if In(s, i, Running) then s.(pollers := s.pollers[i := s.pollers[i].(phase := Over)]) else s
    case Stop(i) =>
      if In(s, i, Running) && s.pollers[i].aborted
      then s.(pollers := s.pollers[i := s.pollers[i].(phase := Over)]) else s
  }

  function After(steps: seq<Step>): State {
    if steps == [] then Start() else Next(After(steps[..|steps| - 1]), steps[|steps| - 1])
  }

  // ----- what every interleaving keeps -----

  /** Attached, and nobody has told it to stop. */
  predicate Polling(s: State, i: nat) {
    In(s, i, Running) && s.pollers[i].listed && !s.pollers[i].aborted
  }

  /** A poller that saw the last screen was of a terminal that exited. */
  predicate Informed(s: State, i: nat)
    requires i < |s.pollers|
  {
    s.pollers[i].phase == Leaving ==> s.pollers[i].pty in s.exited
  }

  /** Each entry is an attached task of its terminal. */
  predicate Handles(s: State) {
    forall pty :: pty in s.tasks ==>
      s.tasks[pty] < |s.pollers| && s.pollers[s.tasks[pty]].pty == pty && s.pollers[s.tasks[pty]].listed
  }

  predicate Inv(s: State) {
    Handles(s) && forall i :: 0 <= i < |s.pollers| ==> Informed(s, i)
  }

  lemma HandlesKeep(s: State, step: Step)
    requires Handles(s)
    ensures Handles(Next(s, step))
  {
  }

  lemma StepKeeps(s: State, step: Step)
    requires Inv(s)
    ensures Inv(Next(s, step))
  {
    HandlesKeep(s, step);
    forall i | 0 <= i < |Next(s, step).pollers|
      ensures Informed(Next(s, step), i)
    {
      InformedKeeps(s, step, i);
    }
  }

  lemma InformedKeeps(s: State, step: Step, i: nat)
    requires i < |Next(s, step).pollers| && (i < |s.pollers| ==> Informed(s, i))
    ensures Informed(Next(s, step), i)
  {
  }

  lemma {:induction false} RunKeeps(steps: seq<Step>)
    ensures Inv(After(steps))
  {
    if steps != [] {
      RunKeeps(steps[..|steps| - 1]);
      StepKeeps(After(steps[..|steps| - 1]), steps[|steps| - 1]);
    }
  }

  // ----- the client's side of it -----

  class Client {
    var pollers: seq<Poller>
    var tasks: map<Pty, nat>
    var exited: set<Pty>

    ghost function View(): State
      reads this
    {
      State(pollers, tasks, exited)
    }

    constructor ()
      ensures View() == Start()
    {
      pollers, tasks, exited := [], map[], {};
    }

    method AbortTask(task: Option<nat>)
      requires task.Some? ==> task.value < |pollers|
      modifies this`pollers
      ensures pollers == Abort(old(pollers), Only(task))
    {
      if task.Some? {
        var i := task.value;
        pollers := pollers[i := pollers[i].(aborted := true)];
      }
      assert pollers == Abort(old(pollers), Only(task));
    }

    /** Attaching a launched task replaces the terminal's task, which is aborted. */
    method Attach(i: nat)
      requires Inv(View()) && i < |pollers| && !pollers[i].listed
      modifies this
      ensures View() == Next(old(View()), List(i)) && Inv(View())
    {
      StepKeeps(View(), List(i));
      var pty := pollers[i].pty;
      AbortTask(Entry(tasks, pty));
      pollers := pollers[i := pollers[i].(listed := true)];
      tasks := tasks[pty := i];
    }

    method CloseTerminal(pty: Pty)
      requires Inv(View())
      modifies this
      ensures View() == Next(old(View()), Close(pty)) && Inv(View())
    {
      StepKeeps(View(), Close(pty));
      AbortTask(Entry(tasks, pty));
      tasks := tasks - {pty};
    }

    /** Every task in the map is aborted, whatever the order. */
    method AbortAll()
      requires Handles(View())
      modifies this`pollers
      ensures pollers == Abort(old(pollers), tasks.Values)
    {
      ghost var done: set<nat> := {};
      var left := tasks.Keys;
      while left != {}
        invariant left <= tasks.Keys
        invariant done <= tasks.Values && forall pty :: pty in tasks && pty !in left ==> tasks[pty] in done
        invariant pollers == Abort(old(pollers), done)
        decreases |left|
      {
        var pty :| pty in left;
        AbortTask(Some(tasks[pty]));
        AbortOneMore(old(pollers), done, tasks[pty]);
        done := done + {tasks[pty]};
        left := left - {pty};
      }
      assert done == tasks.Values;
    }

    method Disconnect()
      requires Inv(View())
      modifies this
      ensures View() == Next(old(View()), TearDown) && Inv(View())
    {
      StepKeeps(View(), TearDown);
      AbortAll();
      tasks := map[];
    }

    /** A poller that saw its terminal exit removes what the map holds for it, and ends. */
    method Finish(i: nat)
      requires Inv(View()) && In(View(), i, Leaving)
      modifies this
      ensures View() == Next(old(View()), Leave(i)) && Inv(View())
    {
      StepKeeps(View(), Leave(i));
      tasks := tasks - {pollers[i].pty};
      pollers := pollers[i := pollers[i].(phase := Over)];
    }
  }

  // ----- the laws -----

  /** This step is another task of the same terminal removing the entry once `i` was attached. */
  predicate Evicts(s: State, step: Step, i: nat) {
    && step.Leave? && step.task != i && In(s, step.task, Leaving)
    && i < |s.pollers| && s.pollers[i].listed && s.pollers[i].pty == s.pollers[step.task].pty
  }

  predicate Evicted(steps: seq<Step>, i: nat) {
    steps != [] &&
    var before := steps[..|steps| - 1];
    Evicted(before, i) || Evicts(After(before), steps[|steps| - 1], i)
  }

  lemma AttachedStays(s: State, step: Step, i: nat)
    requires i < |s.pollers|
    ensures var t := Next(s, step);
            && i < |t.pollers| && t.pollers[i].pty == s.pollers[i].pty
            && (s.pollers[i].listed ==> t.pollers[i].listed)
            && s.exited <= t.exited
  {
  }

  /** Only the exit of a terminal leads to an eviction, and only of what was attached. */
  lemma {:induction false} EvictedHasExited(steps: seq<Step>, i: nat)
    requires Evicted(steps, i)
    ensures var s := After(steps);
            i < |s.pollers| && s.pollers[i].listed && s.pollers[i].pty in s.exited
  {
    var before, last := steps[..|steps| - 1], steps[|steps| - 1];
    if Evicted(before, i) {
      EvictedHasExited(before, i);
    } else {
      RunKeeps(before);
      assert Informed(After(before), last.task);
    }
    AttachedStays(After(before), last, i);
  }

  /** What one step does to a polling task and its entry. */
  lemma PollingStep(s: State, step: Step, i: nat)
    requires Inv(s) && Polling(Next(s, step), i)
    ensures !Polling(s, i) ==> step == List(i) && i < |s.pollers| && !s.pollers[i].listed
    ensures !Polling(s, i) ==> Entry(Next(s, step).tasks, s.pollers[i].pty) == Some(i)
    ensures Polling(s, i) ==>
              (Entry(Next(s, step).tasks, s.pollers[i].pty) == Some(i) <==>
               Entry(s.tasks, s.pollers[i].pty) == Some(i) && !Evicts(s, step, i))
  {
    if i < |s.pollers| && Entry(s.tasks, s.pollers[i].pty) == Some(i) {
      assert i in s.tasks.Values;
    }
  }

  /** The map holds a polling task exactly when no other task's exit has removed its entry. */
  lemma {:induction false} TrackedExactly(steps: seq<Step>, i: nat)
    requires Polling(After(steps), i)
    ensures Entry(After(steps).tasks, After(steps).pollers[i].pty) == Some(i) <==> !Evicted(steps, i)
  {
    if steps != [] {
      var before, last := steps[..|steps| - 1], steps[|steps| - 1];
      var s := After(before);
      RunKeeps(before);
      PollingStep(s, last, i);
      if Polling(s, i) {
        TrackedExactly(before, i);
        AttachedStays(s, last, i);
      } else if Evicted(before, i) {
        EvictedHasExited(before, i);
      }
    }
  }

  /** These are all the ways a polling task may stop polling. */
  predicate Stops(s: State, step: Step, i: nat)
    requires i < |s.pollers|
  {
    match step
    case List(j) => j < |s.pollers| && s.pollers[j].pty == s.pollers[i].pty
    case Close(pty) => pty == s.pollers[i].pty
    case TearDown => true
    case SeeExit(j) => j == i
    case Fail(j) => j == i
    case _ => false
  }

  /**
   * A polling task goes on until it is replaced on its own terminal, that terminal or the whole
   * connection is closed, or it sees the exit or fails itself: nothing done to another terminal
   * stops it. An attached task starts out polling, under its terminal's entry.
   */
  lemma GoesOnUnlessStopped(steps: seq<Step>, step: Step, i: nat)
    requires i < |After(steps).pollers|
    ensures Polling(After(steps), i) && !Stops(After(steps), step, i) ==> Polling(Next(After(steps), step), i)
    ensures In(After(steps), i, Running) && !After(steps).pollers[i].listed && !After(steps).pollers[i].aborted ==>
              var t := Next(After(steps), List(i));
              Polling(t, i) && Entry(t.tasks, t.pollers[i].pty) == Some(i)
  {
    RunKeeps(steps);
    if Polling(After(steps), i) && !Stops(After(steps), step, i) {
      StepSparesOthers(After(steps), step, i);
    }
    if In(After(steps), i, Running) && !After(steps).pollers[i].listed && !After(steps).pollers[i].aborted {
      AttachedPolls(After(steps), i);
    }
  }

  lemma StepSparesOthers(s: State, step: Step, i: nat)
    requires Handles(s) && i < |s.pollers| && Polling(s, i) && !Stops(s, step, i)
    ensures Polling(Next(s, step), i)
  {
  }

  lemma AttachedPolls(s: State, i: nat)
    requires Handles(s) && In(s, i, Running) && !s.pollers[i].listed && !s.pollers[i].aborted
    ensures var t := Next(s, List(i));
            Polling(t, i) && Entry(t.tasks, t.pollers[i].pty) == Some(i)
  {
  }

  /** Of two tasks polling one terminal, one was evicted; so the terminal has exited. */
  lemma OnePollerEach(steps: seq<Step>, i: nat, j: nat)
    requires var s := After(steps);
             i != j && Polling(s, i) && Polling(s, j) && s.pollers[i].pty == s.pollers[j].pty
    ensures Evicted(steps, i) || Evicted(steps, j)
    ensures After(steps).pollers[i].pty in After(steps).exited
  {
    TrackedExactly(steps, i);
    TrackedExactly(steps, j);
    EvictedHasExited(steps, if Evicted(steps, i) then i else j);
  }

  /** Closing its terminal or the whole connection stops a polling task exactly when it was not evicted. */
  lemma StoppingReachesPollers(steps: seq<Step>, i: nat)
    requires Polling(After(steps), i)
    ensures Polling(Next(After(steps), TearDown), i) <==> Evicted(steps, i)
    ensures Next(After(steps), TearDown).tasks == map[]
    ensures Polling(Next(After(steps), Close(After(steps).pollers[i].pty)), i) <==> Evicted(steps, i)
  {
    var s := After(steps);
    TrackedExactly(steps, i);
    if Entry(s.tasks, s.pollers[i].pty) == Some(i) {
      assert i in s.tasks.Values;
    } else {
      RunKeeps(steps);
    }
  }

  /**
   * A running task is over once it fails, or once it comes to wait after it was aborted, and not
   * before; one that saw the exit is over only when it has left.
   */
  lemma EndsExactly(s: State, step: Step, i: nat)
    requires i < |s.pollers| && s.pollers[i].phase != Over
    ensures i < |Next(s, step).pollers|
    ensures Next(s, step).pollers[i].phase == Over <==>
            || (s.pollers[i].phase == Running && (step == Fail(i) || (step == Stop(i) && s.pollers[i].aborted)))
            || (s.pollers[i].phase == Leaving && step == Leave(i))
  {
  }

  /** An evicted task still ends by itself: its terminal has exited, which its next screen tells it. */
  lemma EvictedEndsByItself(steps: seq<Step>, i: nat)
    requires Polling(After(steps), i) && Evicted(steps, i)
    ensures In(Next(Next(After(steps), SeeExit(i)), Leave(i)), i, Over)
  {
    EvictedHasExited(steps, i);
  }

  /**
   * Evictions happen: a replaced task that saw the terminal exit removes its successor from the
   * map, so closing no longer reaches the successor, which polls until it sees the exit itself.
   */
  lemma SuccessorMayBeForgotten()
    ensures var s := After([Launch(7), List(0), Exit(7), SeeExit(0), Launch(7), List(1), Leave(0), Close(7)]);
            Polling(s, 1) && s.tasks == map[]
  {
    var first: seq<Step> := [Launch(7), List(0), Exit(7)];
    var second := first + [SeeExit(0)] + [Launch(7)] + [List(1)];
    var third := second + [Leave(0)] + [Close(7)];
    assert third == [Launch(7), List(0), Exit(7), SeeExit(0), Launch(7), List(1), Leave(0), Close(7)];
    assert first[..2] == [Launch(7), List(0)] && first[..2][..1] == [Launch(7)] && first[..1][..0] == [];
    FirstListed();
    AfterOne(first, SeeExit(0));
    AfterOne(first + [SeeExit(0)], Launch(7));
    AfterOne(first + [SeeExit(0)] + [Launch(7)], List(1));
    SuccessorListed(After(first));
    AfterOne(second, Leave(0));
    AfterOne(second + [Leave(0)], Close(7));
    SuccessorRemoved(After(second));
  }

  lemma AfterOne(steps: seq<Step>, step: Step)
    ensures After(steps + [step]) == Next(After(steps), step)
  {
    assert (steps + [step])[..|steps|] == steps;
  }

  lemma FirstListed()
    ensures After([Launch(7), List(0), Exit(7)]) == State([Poller(7, Running, true, false)], map[7 := 0], {7})
  {
    assert [] + [Launch(7)] == [Launch(7)] && [Launch(7)] + [List(0)] == [Launch(7), List(0)];
    assert [Launch(7), List(0)] + [Exit(7)] == [Launch(7), List(0), Exit(7)];
    AfterOne([], Launch(7));
    AfterOne([Launch(7)], List(0));
    AfterOne([Launch(7), List(0)], Exit(7));
    assert After([Launch(7)]) == State([Poller(7, Running, false, false)], map[], {});
    assert After([Launch(7), List(0)]) == State([Poller(7, Running, true, false)], map[7 := 0], {});
  }

  lemma SuccessorListed(s: State)
    requires s == State([Poller(7, Running, true, false)], map[7 := 0], {7})
    ensures Next(Next(Next(s, SeeExit(0)), Launch(7)), List(1)) ==
            State([Poller(7, Leaving, true, true), Poller(7, Running, true, false)], map[7 := 1], {7})
  {
  }

  lemma SuccessorRemoved(s: State)
    requires s == State([Poller(7, Leaving, true, true), Poller(7, Running, true, false)], map[7 := 1], {7})
    ensures var t := Next(Next(s, Leave(0)), Close(7));
            Polling(t, 1) && t.tasks == map[]
  {
    var t := Next(s, Leave(0));
    assert t == State([Poller(7, Over, true, true), Poller(7, Running, true, false)], map[], {7});
  }
}
