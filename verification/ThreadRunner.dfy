// The handshake between a runner's thread and the thread that starts, pauses, resumes and finishes it.
module ThreadRunner {

  datatype RunState = Finished | Running | Paused

  // Where the runner's thread is in its loop.
  datatype Thread =
    | NotStarted
    | AtLoad
    | LoadedTarget(target: RunState)
    | LoadedBoth(target: RunState, current: RunState)
    | InTask
    | Waiting
    | Exited

  datatype Controller = Free | Pausing | Holding | Finishing | Ended

  datatype State = State(current: RunState, target: RunState, thread: Thread, controller: Controller)

  datatype Step =
    // the runner's thread
    | LoadTarget
    | LoadCurrent
    | Act
    | TaskDone
    | Wake
    // the controlling thread
    | Start
    | PauseStore
    | PauseReturn
    | Resume
    | FinishStore
    | Join

  const INITIAL := State(Finished, Finished, NotStarted, Free)

  // A wait on an atomic returns only when the value differs from the one waited on.
  predicate Enabled(s: State, step: Step) {
    match step
    case LoadTarget => s.thread.AtLoad?
    case LoadCurrent => s.thread.LoadedTarget?
    case Act => s.thread.LoadedBoth?
    case TaskDone => s.thread.InTask?
    case Wake => s.thread.Waiting? && s.target != Paused
    case Start => s.thread.NotStarted? && s.controller.Free?
    case PauseStore => s.controller.Free?
    case PauseReturn => s.controller.Pausing? && s.current != Running
    case Resume => s.controller.Holding?
    case FinishStore => s.controller.Free?
    case Join => s.controller.Finishing? && (s.thread.Exited? || s.thread.NotStarted?)
  }

  function Next(s: State, step: Step): State
    requires Enabled(s, step)
  {
    match step
    case LoadTarget => s.(thread := LoadedTarget(s.target))
    case LoadCurrent => s.(thread := LoadedBoth(s.thread.target, s.current))
    case Act =>
      var stored := if s.thread.current != s.thread.target then s.(current := s.thread.target) else s;
      stored.(thread := match s.thread.target case Finished => Exited case Running => InTask case Paused => Waiting)
    case TaskDone => s.(thread := AtLoad)
    case Wake => s.(thread := AtLoad)
    case Start => s.(thread := AtLoad, target := Running)
    case PauseStore => s.(target := Paused, controller := Pausing)
    case PauseReturn => s.(controller := Holding)
    case Resume => s.(target := Running, controller := Free)
    case FinishStore => s.(target := Finished, controller := Finishing)
    case Join => s.(controller := Ended)
  }

  // The thread is in its task, or will be without looking at the target again.
  predicate InOrEntering(t: Thread) {
    t.InTask? || (t.LoadedTarget? && t.target == Running) || (t.LoadedBoth? && t.target == Running)
  }

  // What every state keeps.
  predicate Consistent(s: State) {
    && (s.thread.LoadedBoth? ==> s.thread.current == s.current)
    && (s.thread.InTask? ==> s.current == Running)
    && (s.thread.Waiting? ==> s.current == Paused)
    && (s.controller in {Pausing, Holding} ==> s.target == Paused)
    && (s.target == Finished ==> s.controller in {Finishing, Ended} || s.thread.NotStarted?)
    && (s.thread.LoadedTarget? && s.thread.target == Finished ==> s.target == Finished)
    && (s.thread.LoadedBoth? && s.thread.target == Finished ==> s.target == Finished)
    && (s.thread.Exited? ==> s.target == s.current == Finished)
  }

  lemma StepConsistent(s: State, step: Step)
    requires Consistent(s) && Enabled(s, step)
    ensures Consistent(Next(s, step))
  {
  }

  predicate Possible(s: State, steps: seq<Step>)
    decreases |steps|
  {
    steps == [] || (Enabled(s, steps[0]) && Possible(Next(s, steps[0]), steps[1..]))
  }

  function Run(s: State, steps: seq<Step>): State
    requires Possible(s, steps)
    decreases |steps|
  {
    if steps == [] then s else Run(Next(s, steps[0]), steps[1..])
  }

  // ---- Exclusion ----

  // A pause that will keep the thread out: the thread has yet to acknowledge, or it is asleep, or it will
  // look at the target before anything else.
  predicate Excluding(s: State) {
    && (s.controller.Pausing? ==> s.current == Running || !InOrEntering(s.thread))
    && (s.controller.Holding? ==> !InOrEntering(s.thread))
  }

  // Every pause is entered while the thread is known to run.
  predicate AllAcknowledged(s: State, steps: seq<Step>)
    requires Possible(s, steps)
    decreases |steps|
  {
    steps == []
    || ((steps[0].PauseStore? ==> s.current == Running) && AllAcknowledged(Next(s, steps[0]), steps[1..]))
  }

  lemma StepExcludes(s: State, step: Step)
    requires Consistent(s) && Excluding(s) && Enabled(s, step)
    requires step.PauseStore? ==> s.current == Running || !InOrEntering(s.thread)
    ensures Excluding(Next(s, step))
  {
  }

  lemma {:induction false} RunExcludes(s: State, steps: seq<Step>)
    requires Consistent(s) && Excluding(s) && Possible(s, steps) && AllAcknowledged(s, steps)
    ensures Consistent(Run(s, steps)) && Excluding(Run(s, steps))
    decreases |steps|
  {
    if steps != [] {
      StepConsistent(s, steps[0]);
      StepExcludes(s, steps[0]);
      RunExcludes(Next(s, steps[0]), steps[1..]);
    }
  }

  // Over every interleaving in which pauses are entered with the current state Running: between the
  // return of a pause and the resume the thread is outside its task and does not enter it.
  lemma PausedThreadStaysOut(steps: seq<Step>)
    requires Possible(INITIAL, steps) && AllAcknowledged(INITIAL, steps)
    ensures Run(INITIAL, steps).controller.Holding? ==> !InOrEntering(Run(INITIAL, steps).thread)
  {
    RunExcludes(INITIAL, steps);
  }

  // ---- The exact condition ----

  // From a state in which the pause is about to be entered, some interleaving lets it return with the
  // thread in its task.
  predicate CanIntrude(s: State, steps: seq<Step>) {
    && Possible(s, steps) && steps != [] && steps[0].PauseStore?
    && (forall i :: 1 <= i < |steps| ==> steps[i] !in {Resume, FinishStore, PauseStore, Start})
    && Run(s, steps).controller.Holding? && Run(s, steps).thread.InTask?
  }

  // A pause excludes the thread, in every interleaving, exactly when it is entered with the current state
  // Running or with a thread that has not yet read the target Running.
  lemma PauseExcludesExactly(s: State)
    requires Consistent(s) && s.controller.Free? && s.target != Finished && !s.thread.Exited? && !s.thread.NotStarted?
    ensures (forall steps :: !CanIntrude(s, steps)) <==> (s.current == Running || !InOrEntering(s.thread))
  {
    if s.current == Running || !InOrEntering(s.thread) {
      forall steps
        ensures !CanIntrude(s, steps)
      {
        if CanIntrude(s, steps) {
          StepConsistent(s, PauseStore);
          HeldRunExcludes(Next(s, PauseStore), steps[1..]);
        }
      }
    } else {
      Intrusion(s);
    }
  }

  lemma {:induction false} HeldRunExcludes(s: State, steps: seq<Step>)
    requires Consistent(s) && Excluding(s) && Possible(s, steps)
    requires forall i :: 0 <= i < |steps| ==> steps[i] !in {Resume, FinishStore, PauseStore, Start}
    ensures Excluding(Run(s, steps))
    decreases |steps|
  {
    if steps != [] {
      StepConsistent(s, steps[0]);
      StepExcludes(s, steps[0]);
      HeldRunExcludes(Next(s, steps[0]), steps[1..]);
    }
  }

  lemma OneFirst(s: State, step: Step, rest: seq<Step>)
    requires Enabled(s, step) && Possible(Next(s, step), rest)
    ensures Possible(s, [step] + rest) && Run(s, [step] + rest) == Run(Next(s, step), rest)
  {
    assert ([step] + rest)[1..] == rest;
  }

  lemma Intrusion(s: State)
    requires Consistent(s) && s.controller.Free? && s.current != Running && InOrEntering(s.thread)
    ensures exists steps :: CanIntrude(s, steps)
  {
    var s1 := Next(s, PauseStore);
    var s2 := Next(s1, PauseReturn);
    var rest := [Act] + [];
    if s.thread.LoadedTarget? {
      var s3 := Next(s2, LoadCurrent);
      OneFirst(s3, Act, []);
      OneFirst(s2, LoadCurrent, rest);
      rest := [LoadCurrent] + rest;
    } else {
      OneFirst(s2, Act, []);
    }
    OneFirst(s1, PauseReturn, rest);
    OneFirst(s, PauseStore, [PauseReturn] + rest);
    assert CanIntrude(s, [PauseStore] + ([PauseReturn] + rest));
  }

  // Such a state is reached right after start, before the thread has stored anything.
  lemma EarlyPauseIntrudes()
    ensures exists steps ::
      Possible(INITIAL, steps) && Run(INITIAL, steps).controller.Holding? && Run(INITIAL, steps).thread.InTask?
  {
    var started := Next(Next(INITIAL, Start), LoadTarget);
    Intrusion(started);
    var steps :| CanIntrude(started, steps);
    OneFirst(Next(INITIAL, Start), LoadTarget, steps);
    OneFirst(INITIAL, Start, [LoadTarget] + steps);
  }

  // ---- Progress ----

  // What the runner's thread does next, if it is not asleep, over, or yet to be created.
  function OwnStep(t: Thread, target: RunState): seq<Step> {
    match t
    case AtLoad => [LoadTarget]
    case LoadedTarget(_) => [LoadCurrent]
    case LoadedBoth(_, _) => [Act]
    case InTask => [TaskDone]
    case Waiting => if target == Paused then [] else [Wake]
    case _ => []
  }

  lemma OwnStepOnly(s: State, step: Step)
    ensures OwnStep(s.thread, s.target) == [step] <==>
      step in {LoadTarget, LoadCurrent, Act, TaskDone, Wake} && Enabled(s, step)
  {
  }

  // Where a thread ends up that follows its target.
  function Goal(target: RunState): Thread {
    match target case Finished => Exited case Running => InTask case Paused => Waiting
  }

  // Up to n steps of the thread, until it is where its target wants it.
  function Settle(s: State, n: nat): State
    decreases n
  {
    var own := OwnStep(s.thread, s.target);
    if n == 0 || own == [] || s.thread == Goal(s.target) then s else Settle(Next(s, own[0]), n - 1)
  }

  // How many steps that takes.
  function Distance(t: Thread, target: RunState): nat {
    if t == Goal(target) then 0
    else
      match t
      case LoadedBoth(seen, _) => if seen == target then 1 else 5
      case LoadedTarget(seen) => if seen == target then 2 else 6
      case AtLoad => 3
      case _ => 4
  }

  lemma {:induction false} Settles(s: State, n: nat)
    requires Consistent(s) && !s.thread.NotStarted? && Distance(s.thread, s.target) <= n
    ensures Settle(s, n) == s.(thread := Goal(s.target), current := s.target)
    decreases n
  {
    if s.thread != Goal(s.target) {
      var step := OwnStep(s.thread, s.target)[0];
      StepConsistent(s, step);
      Settles(Next(s, step), n - 1);
    }
  }

  lemma {:induction false} RunConsistent(s: State, steps: seq<Step>)
    requires Consistent(s) && Possible(s, steps)
    ensures Consistent(Run(s, steps))
    decreases |steps|
  {
    if steps != [] {
      StepConsistent(s, steps[0]);
      RunConsistent(Next(s, steps[0]), steps[1..]);
    }
  }

  // In no interleaving is anyone left waiting: six steps of a started thread answer a pause, bring it into its
  // task after a start or a resume, and end it so that finish can join it.
  lemma NobodyStuck(steps: seq<Step>)
    requires Possible(INITIAL, steps) && !Run(INITIAL, steps).thread.NotStarted?
    ensures
      var s := Run(INITIAL, steps);
      && (s.controller.Pausing? ==> Settle(s, 6).thread.Waiting? && Enabled(Settle(s, 6), PauseReturn))
      && (s.controller.Free? ==> Settle(s, 6).thread.InTask? && Settle(s, 6).current == Running)
      && (s.controller.Holding? ==>
            Settle(Next(s, Resume), 6).thread.InTask? && Settle(Next(s, Resume), 6).current == Running)
      && (s.controller.Finishing? ==> Settle(s, 6).thread.Exited? && Enabled(Settle(s, 6), Join))
  {
    var s := Run(INITIAL, steps);
    RunConsistent(INITIAL, steps);
    Settles(s, 6);
    if s.controller.Holding? {
      StepConsistent(s, Resume);
      Settles(Next(s, Resume), 6);
    }
    RunAsked(INITIAL, steps);
  }

  // Once finish has returned the thread is over, in every interleaving.
  lemma FinishedThreadIsOver(steps: seq<Step>)
    requires Possible(INITIAL, steps) && Run(INITIAL, steps).controller.Ended?
    ensures Run(INITIAL, steps).thread.Exited? || Run(INITIAL, steps).thread.NotStarted?
  {
    RunAsked(INITIAL, steps);
  }

  // What the controlling thread has asked for, by where it is, and has got.
  predicate Asked(s: State) {
    && (s.controller in {Finishing, Ended} ==> s.target == Finished)
    && (s.controller.Free? && !s.thread.NotStarted? ==> s.target == Running)
    && (s.controller.Ended? ==> s.thread.Exited? || s.thread.NotStarted?)
  }

  lemma {:induction false} RunAsked(s: State, steps: seq<Step>)
    requires Asked(s) && Possible(s, steps)
    ensures Asked(Run(s, steps))
    decreases |steps|
  {
    if steps != [] {
      RunAsked(Next(s, steps[0]), steps[1..]);
    }
  }
}
