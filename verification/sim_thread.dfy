/**
 The simulation thread of the current launcher: one iteration of its loop as a step
 function, and a run of several iterations as a trace. The engine's answers (the
 simulation state, the elapsed simulation time) are observations handed to each step;
 the engine calls of an iteration are returned as commands, in the order issued.
 */
module SimThread {
  import opened Text
  import opened Engine

  /** The variables the loop reads and writes: the pending scene or model path, the
      auto-start request, whether auto-start happened, the run counter and the stop delay
      in milliseconds (0 or less means disarmed). */
  datatype ThreadState = ThreadState(
    pending: string,
    autoStart: bool,
    autoStarted: bool,
    runCount: int,
    stopDelay: int)

  /** What the engine reports during one iteration: its simulation state and the elapsed
      simulation time, in milliseconds. */
  datatype Observation = Observation(state: SimulationState, elapsedMs: real)

  datatype StepResult = StepResult(next: ThreadState, commands: seq<EngineCommand>)

  /** The state the thread starts its loop with. */
  function Initial(pending: string, autoStart: bool, stopDelay: int): (s: ThreadState)
    ensures s.pending == pending && s.autoStart == autoStart && s.stopDelay == stopDelay
    ensures !s.autoStarted && s.runCount == 0
  {
    ThreadState(pending, autoStart, false, 0, stopDelay)
  }

  predicate IsScenePath(path: string)
  {
    EndsWith(path, ".ttt") || EndsWith(path, ".simscene.xml")
  }

  predicate IsModelPath(path: string)
  {
    EndsWith(path, ".ttm") || EndsWith(path, ".simmodel.xml")
  }

  /** Each character of a suffix sits at the matching position at the end of the path. */
  lemma SuffixChars(path: string, ending: string)
    ensures EndsWith(path, ending) ==>
              forall k :: 0 <= k < |ending| ==> path[|path| - |ending| + k] == ending[k]
  {
    if EndsWith(path, ending) {
      forall k | 0 <= k < |ending| ensures path[|path| - |ending| + k] == ending[k] {
        assert path[|path| - |ending|..][k] == ending[k];
      }
    }
  }

  /** No path is both a scene and a model, so a pending path causes at most one load. */
  lemma ScenesAndModelsDisjoint(path: string)
    ensures !(IsScenePath(path) && IsModelPath(path))
  {
    SuffixChars(path, ".ttt");
    SuffixChars(path, ".ttm");
    SuffixChars(path, ".simscene.xml");
    SuffixChars(path, ".simmodel.xml");
  }

  /** Whether a command is a scene or model load. */
  predicate IsLoad(c: EngineCommand)
  {
    c.LoadScene? || c.LoadModel?
  }

  /** How many times a command occurs among some commands. */
  function Count(cmds: seq<EngineCommand>, c: EngineCommand): nat
  {
    if |cmds| == 0 then 0
    else (if cmds[0] == c then 1 else 0) + Count(cmds[1..], c)
  }

  /** How many scene and model loads occur among some commands. */
  function LoadCount(cmds: seq<EngineCommand>): nat
  {
    if |cmds| == 0 then 0
    else (if IsLoad(cmds[0]) then 1 else 0) + LoadCount(cmds[1..])
  }

  lemma CountCons(x: EngineCommand, rest: seq<EngineCommand>, c: EngineCommand)
    ensures Count([x] + rest, c) == (if x == c then 1 else 0) + Count(rest, c)
    ensures LoadCount([x] + rest) == (if IsLoad(x) then 1 else 0) + LoadCount(rest)
  {
    assert ([x] + rest)[1..] == rest;
  }

  lemma {:induction false} CountAppend(a: seq<EngineCommand>, b: seq<EngineCommand>, c: EngineCommand)
    ensures Count(a + b, c) == Count(a, c) + Count(b, c)
    ensures LoadCount(a + b) == LoadCount(a) + LoadCount(b)
  {
    if |a| > 0 {
      assert a + b == [a[0]] + (a[1..] + b);
      assert a == [a[0]] + a[1..];
      CountCons(a[0], a[1..] + b, c);
      CountCons(a[0], a[1..], c);
      CountAppend(a[1..], b, c);
    } else {
      assert a + b == b;
    }
  }

  /** A load occurs no more often than loads do in all. */
  lemma {:induction false} LoadBound(cmds: seq<EngineCommand>, c: EngineCommand)
    requires IsLoad(c)
    ensures Count(cmds, c) <= LoadCount(cmds)
  {
    if |cmds| > 0 {
      LoadBound(cmds[1..], c);
    }
  }

  /** The position of a command in the thread's fixed issue order: `Initialize` before the
      loop; within an iteration the load first, then start, the exit request, stop, and the
      engine tick last; `Deinitialize` after the loop. */
  function Rank(c: EngineCommand): nat
  {
    match c
    case Initialize => 0
    case LoadScene(_) => 1
    case LoadModel(_) => 1
    case StartSimulation => 2
    case PostExitRequest => 3
    case StopSimulation => 4
    case AdvanceLoop => 5
    case Deinitialize => 6
  }

  /** Commands strictly in issue order, so also at most one of each rank. */
  predicate InIssueOrder(cmds: seq<EngineCommand>)
  {
    forall i, j :: 0 <= i < j < |cmds| ==> Rank(cmds[i]) < Rank(cmds[j])
  }

  /** A command ranked before the first of some ordered commands can go in front of them. */
  lemma PrependInOrder(c: EngineCommand, rest: seq<EngineCommand>)
    requires InIssueOrder(rest) && (|rest| > 0 ==> Rank(c) < Rank(rest[0]))
    ensures InIssueOrder([c] + rest)
  {
    var cmds := [c] + rest;
    forall i, j | 0 <= i < j < |cmds|
      ensures Rank(cmds[i]) < Rank(cmds[j])
    {
      if i == 0 {
        assert cmds[j] == rest[j - 1];
        if j > 1 {
          assert Rank(rest[0]) < Rank(rest[j - 1]);
        }
      } else {
        assert cmds[i] == rest[i - 1] && cmds[j] == rest[j - 1];
      }
    }
  }

  /** The loads the pending path causes: one scene load for a scene suffix, one model load
      for a model suffix, nothing for an empty path or any other suffix. */
  function LoadCommands(path: string): (cmds: seq<EngineCommand>)
    ensures Count(cmds, LoadScene(path)) == (if IsScenePath(path) then 1 else 0)
    ensures Count(cmds, LoadModel(path)) == (if IsModelPath(path) then 1 else 0)
    ensures LoadCount(cmds) == (if IsScenePath(path) || IsModelPath(path) then 1 else 0)
    ensures Count(cmds, StartSimulation) == 0 && Count(cmds, PostExitRequest) == 0
    ensures Count(cmds, StopSimulation) == 0 && Count(cmds, AdvanceLoop) == 0
    ensures |cmds| <= 1 && forall i :: 0 <= i < |cmds| ==> IsLoad(cmds[i])
  {
    ScenesAndModelsDisjoint(path);
    if |path| > 0 then
      (if IsScenePath(path) then [LoadScene(path)] else [])
      + (if IsModelPath(path) then [LoadModel(path)] else [])
    else []
  }

  /** The commands that follow the loads: auto-start, exit request, stop, then the tick. */
  function ControlCommands(start: bool, exit: bool, stop: bool): (cmds: seq<EngineCommand>)
    ensures Count(cmds, StartSimulation) == (if start then 1 else 0)
    ensures Count(cmds, PostExitRequest) == (if exit then 1 else 0)
    ensures Count(cmds, StopSimulation) == (if stop then 1 else 0)
    ensures LoadCount(cmds) == 0
    ensures Count(cmds, AdvanceLoop) == 1
  {
    var tick := [AdvanceLoop];
    var afterStop := if stop then [StopSimulation] + tick else tick;
    var afterExit := if exit then [PostExitRequest] + afterStop else afterStop;
    var cmds := if start then [StartSimulation] + afterExit else afterExit;
    forall c | c in {StartSimulation, PostExitRequest, StopSimulation, AdvanceLoop}
      ensures Count(cmds, c) == (if start && c == StartSimulation then 1 else 0)
                                + (if exit && c == PostExitRequest then 1 else 0)
                                + (if stop && c == StopSimulation then 1 else 0)
                                + (if c == AdvanceLoop then 1 else 0)
      ensures LoadCount(cmds) == 0
    {
      CountCons(AdvanceLoop, [], c);
      CountCons(StopSimulation, tick, c);
      CountCons(PostExitRequest, afterStop, c);
      CountCons(StartSimulation, afterExit, c);
    }
    cmds
  }

  /** The loads of an iteration, then its control commands, are in issue order. */
  lemma LoadsBeforeControl(loads: seq<EngineCommand>, control: seq<EngineCommand>)
    requires |loads| <= 1 && forall i :: 0 <= i < |loads| ==> IsLoad(loads[i])
    requires InIssueOrder(control) && forall i :: 0 <= i < |control| ==> Rank(control[i]) >= Rank(StartSimulation)
    ensures InIssueOrder(loads + control)
    ensures forall i, j :: 0 <= i < j < |loads + control| && IsLoad((loads + control)[j]) ==>
              IsLoad((loads + control)[i])
  {
    var cmds := loads + control;
    forall i, j | 0 <= i < j < |cmds|
      ensures Rank(cmds[i]) < Rank(cmds[j])
      ensures IsLoad(cmds[j]) ==> IsLoad(cmds[i])
    {
      if j < |loads| {
        assert false;
      } else if i < |loads| {
        assert cmds[i] == loads[i] && cmds[j] == control[j - |loads|];
      } else {
        assert cmds[i] == control[i - |loads|] && cmds[j] == control[j - |loads|];
      }
    }
  }

  /** Whether the thread counts as auto-started once this iteration's auto-start is done. */
  predicate Started(s: ThreadState)
  {
    s.autoStarted || s.autoStart
  }

  /** The run counter after this iteration's observation. */
  function Counted(s: ThreadState, obs: Observation): int
  {
    if obs.state == AdvancingFirstAfterStop then s.runCount + 1 else s.runCount
  }

  /** Whether this iteration requests exit: stopped after one counted run, with auto-quit. */
  predicate Exits(s: ThreadState, autoQuit: bool, obs: Observation)
  {
    obs.state == Stopped && Counted(s, obs) == 1 && autoQuit
  }

  /** Whether this iteration's stop delay fires: armed, auto-started, and exceeded by the
      elapsed simulation time. */
  predicate Fires(s: ThreadState, obs: Observation)
  {
    s.stopDelay > 0 && Started(s) && obs.elapsedMs > s.stopDelay as real
  }

  /** One iteration of the loop body: load the pending file, auto-start, count runs,
      request exit after the first run, and stop once the delay has elapsed, then tick.
      What each part promises is stated by the `Step...` lemmas below. */
  function Step(s: ThreadState, autoQuit: bool, obs: Observation): (r: StepResult)
    ensures r.next.pending == "" && !r.next.autoStart
  {
    var fires := Fires(s, obs);
    StepResult(
      ThreadState("", false, Started(s), Counted(s, obs), if fires then 0 else s.stopDelay),
      LoadCommands(s.pending) + ControlCommands(s.autoStart, Exits(s, autoQuit, obs), fires))
  }

  /** The control commands come in issue order, end with the tick, and load nothing. */
  lemma ControlInOrder(start: bool, exit: bool, stop: bool)
    ensures InIssueOrder(ControlCommands(start, exit, stop))
    ensures |ControlCommands(start, exit, stop)| > 0
    ensures ControlCommands(start, exit, stop)[|ControlCommands(start, exit, stop)| - 1] == AdvanceLoop
    ensures forall i :: 0 <= i < |ControlCommands(start, exit, stop)| ==> Rank(ControlCommands(start, exit, stop)[i]) >= Rank(StartSimulation)
    ensures forall i :: 0 <= i < |ControlCommands(start, exit, stop)| ==> !IsLoad(ControlCommands(start, exit, stop)[i])
  {
    var tick := [AdvanceLoop];
    var afterStop := if stop then [StopSimulation] + tick else tick;
    var afterExit := if exit then [PostExitRequest] + afterStop else afterStop;
    PrependInOrder(StopSimulation, tick);
    PrependInOrder(PostExitRequest, afterStop);
    PrependInOrder(StartSimulation, afterExit);
    var cmds := ControlCommands(start, exit, stop);
    assert Rank(cmds[0]) >= Rank(StartSimulation);
    forall i | 0 <= i < |cmds|
      ensures Rank(cmds[i]) >= Rank(StartSimulation) && !IsLoad(cmds[i])
    {
      if i > 0 {
        assert Rank(cmds[0]) < Rank(cmds[i]);
      }
    }
  }

  /** An iteration issues its commands in the order of the loop body: the load of the
      pending path first, then start, the exit request and stop, each at most once, and
      it ends with exactly one engine tick. */
  lemma StepIssueOrder(s: ThreadState, autoQuit: bool, obs: Observation)
    ensures InIssueOrder(Step(s, autoQuit, obs).commands)
    ensures |Step(s, autoQuit, obs).commands| > 0
    ensures Step(s, autoQuit, obs).commands[|Step(s, autoQuit, obs).commands| - 1] == AdvanceLoop
    ensures forall i, j :: 0 <= i < j < |Step(s, autoQuit, obs).commands| && IsLoad(Step(s, autoQuit, obs).commands[j])
              ==> IsLoad(Step(s, autoQuit, obs).commands[i])
  {
    var loads := LoadCommands(s.pending);
    var control := ControlCommands(s.autoStart, Exits(s, autoQuit, obs), Fires(s, obs));
    ControlInOrder(s.autoStart, Exits(s, autoQuit, obs), Fires(s, obs));
    LoadsBeforeControl(loads, control);
    assert (loads + control)[|loads + control| - 1] == control[|control| - 1];
  }

  /** An iteration consumes the pending path whatever its suffix and whatever the load
      returned: a scene suffix gives exactly one scene load, a model suffix exactly one
      model load, and every load it issues is of the pending path. */
  lemma StepLoadsPending(s: ThreadState, autoQuit: bool, obs: Observation)
    ensures Step(s, autoQuit, obs).next.pending == ""
    ensures Count(Step(s, autoQuit, obs).commands, LoadScene(s.pending)) == (if IsScenePath(s.pending) then 1 else 0)
    ensures Count(Step(s, autoQuit, obs).commands, LoadModel(s.pending)) == (if IsModelPath(s.pending) then 1 else 0)
    ensures LoadCount(Step(s, autoQuit, obs).commands)
            == Count(Step(s, autoQuit, obs).commands, LoadScene(s.pending))
               + Count(Step(s, autoQuit, obs).commands, LoadModel(s.pending))
  {
    var loads := LoadCommands(s.pending);
    var control := ControlCommands(s.autoStart, Exits(s, autoQuit, obs), Fires(s, obs));
    CountAppend(loads, control, LoadScene(s.pending));
    CountAppend(loads, control, LoadModel(s.pending));
    LoadBound(control, LoadScene(s.pending));
    LoadBound(control, LoadModel(s.pending));
    ScenesAndModelsDisjoint(s.pending);
  }

  /** Auto-start is consumed by the iteration that sees it: one start when it was
      requested, none otherwise, and the thread counts as auto-started from then on. */
  lemma StepConsumesAutoStart(s: ThreadState, autoQuit: bool, obs: Observation)
    ensures !Step(s, autoQuit, obs).next.autoStart
    ensures Step(s, autoQuit, obs).next.autoStarted <==> s.autoStarted || s.autoStart
    ensures Count(Step(s, autoQuit, obs).commands, StartSimulation) == (if s.autoStart then 1 else 0)
  {
    var loads := LoadCommands(s.pending);
    var control := ControlCommands(s.autoStart, Exits(s, autoQuit, obs), Fires(s, obs));
    CountAppend(loads, control, StartSimulation);
  }

  /** The run counter never decreases, and it changes, by exactly one, only in an
      iteration that observes the first step after a stop. */
  lemma StepCountsRun(s: ThreadState, autoQuit: bool, obs: Observation)
    ensures Step(s, autoQuit, obs).next.runCount >= s.runCount
    ensures Step(s, autoQuit, obs).next.runCount - s.runCount <= 1
    ensures Step(s, autoQuit, obs).next.runCount != s.runCount <==> obs.state == AdvancingFirstAfterStop
  {
  }

  /** Exit is requested, once, exactly in an iteration that observes the stopped state
      when one run has been counted and auto-quit is set. */
  lemma StepRequestsExit(s: ThreadState, autoQuit: bool, obs: Observation)
    ensures Count(Step(s, autoQuit, obs).commands, PostExitRequest)
            == (if obs.state == Stopped && s.runCount == 1 && autoQuit then 1 else 0)
  {
    var loads := LoadCommands(s.pending);
    var control := ControlCommands(s.autoStart, Exits(s, autoQuit, obs), Fires(s, obs));
    CountAppend(loads, control, PostExitRequest);
  }

  /** The stop delay fires, issuing one stop, exactly when it is armed, the thread has
      auto-started and the elapsed time exceeds it; firing disarms it, otherwise it is kept. */
  lemma StepStopsOnDelay(s: ThreadState, autoQuit: bool, obs: Observation)
    ensures Count(Step(s, autoQuit, obs).commands, StopSimulation)
            == (if s.stopDelay > 0 && (s.autoStarted || s.autoStart) && obs.elapsedMs > s.stopDelay as real
                then 1 else 0)
    ensures Step(s, autoQuit, obs).next.stopDelay
            == (if Count(Step(s, autoQuit, obs).commands, StopSimulation) > 0 then 0 else s.stopDelay)
    ensures Step(s, autoQuit, obs).next.autoStarted <==> s.autoStarted || s.autoStart
  {
    var loads := LoadCommands(s.pending);
    var control := ControlCommands(s.autoStart, Exits(s, autoQuit, obs), Fires(s, obs));
    CountAppend(loads, control, StopSimulation);
  }

  /** Every iteration ticks the engine exactly once. */
  lemma StepTicksOnce(s: ThreadState, autoQuit: bool, obs: Observation)
    ensures Count(Step(s, autoQuit, obs).commands, AdvanceLoop) == 1
  {
    var loads := LoadCommands(s.pending);
    var control := ControlCommands(s.autoStart, Exits(s, autoQuit, obs), Fires(s, obs));
    CountAppend(loads, control, AdvanceLoop);
  }

  /** Consecutive iterations of the loop, one per observation, starting from `s`. */
  function Run(s: ThreadState, autoQuit: bool, trace: seq<Observation>): (r: StepResult)
    decreases |trace|
  {
    if |trace| == 0 then StepResult(s, [])
    else
      var first := Step(s, autoQuit, trace[0]);
      var rest := Run(first.next, autoQuit, trace[1..]);
      StepResult(rest.next, first.commands + rest.commands)
  }

  /** The number of observations of the first step after a stop. */
  function RunsObserved(trace: seq<Observation>): nat
  {
    if |trace| == 0 then 0
    else (if trace[0].state == AdvancingFirstAfterStop then 1 else 0) + RunsObserved(trace[1..])
  }

  /** With no path pending, a whole run loads nothing and nothing becomes pending. */
  lemma {:induction false} NothingPendingLoadsNothing(s: ThreadState, autoQuit: bool, trace: seq<Observation>)
    requires s.pending == ""
    ensures LoadCount(Run(s, autoQuit, trace).commands) == 0
    ensures Run(s, autoQuit, trace).next.pending == ""
    decreases |trace|
  {
    if |trace| > 0 {
      var first := Step(s, autoQuit, trace[0]);
      var rest := Run(first.next, autoQuit, trace[1..]);
      NothingPendingLoadsNothing(first.next, autoQuit, trace[1..]);
      StepLoadsPending(s, autoQuit, trace[0]);
      assert !IsScenePath("") && !IsModelPath("");
      CountAppend(first.commands, rest.commands, AdvanceLoop);
    }
  }

  /** The pending path is consumed by the first iteration and loaded at most once over a
      whole run, never retried: one scene load if it names a scene, one model load if it
      names a model, and no load of anything else. */
  lemma LoadedAtMostOnce(s: ThreadState, autoQuit: bool, trace: seq<Observation>)
    requires |trace| > 0
    ensures Run(s, autoQuit, trace).next.pending == ""
    ensures Count(Run(s, autoQuit, trace).commands, LoadScene(s.pending)) == (if IsScenePath(s.pending) then 1 else 0)
    ensures Count(Run(s, autoQuit, trace).commands, LoadModel(s.pending)) == (if IsModelPath(s.pending) then 1 else 0)
    ensures LoadCount(Run(s, autoQuit, trace).commands) <= 1
    ensures LoadCount(Run(s, autoQuit, trace).commands)
            == Count(Run(s, autoQuit, trace).commands, LoadScene(s.pending))
               + Count(Run(s, autoQuit, trace).commands, LoadModel(s.pending))
  {
    var first := Step(s, autoQuit, trace[0]);
    var rest := Run(first.next, autoQuit, trace[1..]);
    StepLoadsPending(s, autoQuit, trace[0]);
    ScenesAndModelsDisjoint(s.pending);
    NothingPendingLoadsNothing(first.next, autoQuit, trace[1..]);
    CountAppend(first.commands, rest.commands, LoadScene(s.pending));
    CountAppend(first.commands, rest.commands, LoadModel(s.pending));
    LoadBound(rest.commands, LoadScene(s.pending));
    LoadBound(rest.commands, LoadModel(s.pending));
  }

  /** Auto-start is consumed by the first iteration: over a whole run, one start when it was
      requested and none otherwise; from then on the thread counts as auto-started. */
  lemma {:induction false} StartedAtMostOnce(s: ThreadState, autoQuit: bool, trace: seq<Observation>)
    ensures Count(Run(s, autoQuit, trace).commands, StartSimulation)
            == (if |trace| > 0 && s.autoStart then 1 else 0)
    ensures |trace| > 0 ==> Run(s, autoQuit, trace).next.autoStarted == (s.autoStarted || s.autoStart)
    decreases |trace|
  {
    if |trace| > 0 {
      var first := Step(s, autoQuit, trace[0]);
      var rest := Run(first.next, autoQuit, trace[1..]);
      StepConsumesAutoStart(s, autoQuit, trace[0]);
      StartedAtMostOnce(first.next, autoQuit, trace[1..]);
      CountAppend(first.commands, rest.commands, StartSimulation);
    }
  }

  /** The run counter grows by exactly the number of first-step-after-stop observations,
      so it never decreases. */
  lemma {:induction false} RunCounterCountsRuns(s: ThreadState, autoQuit: bool, trace: seq<Observation>)
    ensures Run(s, autoQuit, trace).next.runCount == s.runCount + RunsObserved(trace)
    decreases |trace|
  {
    if |trace| > 0 {
      var first := Step(s, autoQuit, trace[0]);
      RunCounterCountsRuns(first.next, autoQuit, trace[1..]);
    }
  }

  /** With the delay disarmed, or with auto-start neither requested nor done, nothing stops. */
  lemma {:induction false} NeverStopsWhenDisarmed(s: ThreadState, autoQuit: bool, trace: seq<Observation>)
    requires s.stopDelay <= 0 || (!s.autoStarted && !s.autoStart)
    ensures Count(Run(s, autoQuit, trace).commands, StopSimulation) == 0
    ensures Run(s, autoQuit, trace).next.stopDelay == s.stopDelay
    decreases |trace|
  {
    if |trace| > 0 {
      var first := Step(s, autoQuit, trace[0]);
      var rest := Run(first.next, autoQuit, trace[1..]);
      StepStopsOnDelay(s, autoQuit, trace[0]);
      NeverStopsWhenDisarmed(first.next, autoQuit, trace[1..]);
      CountAppend(first.commands, rest.commands, StopSimulation);
    }
  }

  /** Some observation of the trace comes later than `delay` milliseconds. */
  predicate PassesDelay(trace: seq<Observation>, delay: int)
  {
    exists i :: 0 <= i < |trace| && trace[i].elapsedMs > delay as real
  }

  lemma PassesDelayCons(trace: seq<Observation>, delay: int)
    requires |trace| > 0
    ensures PassesDelay(trace, delay) <==>
              trace[0].elapsedMs > delay as real || PassesDelay(trace[1..], delay)
  {
    if PassesDelay(trace, delay) && trace[0].elapsedMs <= delay as real {
      var i :| 0 <= i < |trace| && trace[i].elapsedMs > delay as real;
      assert trace[1..][i - 1] == trace[i];
    }
    if PassesDelay(trace[1..], delay) {
      var i :| 0 <= i < |trace[1..]| && trace[1..][i].elapsedMs > delay as real;
      assert trace[i + 1] == trace[1..][i];
    }
  }

  /** The stop delay fires at most once over a whole run, and it fires exactly when it was
      armed, auto-start had been requested or done, and some iteration saw the elapsed time
      exceed it; once it has fired it stays disarmed. */
  lemma {:induction false} StopFiresAtMostOnce(s: ThreadState, autoQuit: bool, trace: seq<Observation>)
    ensures Count(Run(s, autoQuit, trace).commands, StopSimulation) <= 1
    ensures Count(Run(s, autoQuit, trace).commands, StopSimulation) == 1 <==>
              s.stopDelay > 0 && (s.autoStarted || s.autoStart) && PassesDelay(trace, s.stopDelay)
    ensures Count(Run(s, autoQuit, trace).commands, StopSimulation) == 1 ==>
              Run(s, autoQuit, trace).next.stopDelay == 0
    decreases |trace|
  {
    if |trace| > 0 {
      var first := Step(s, autoQuit, trace[0]);
      var rest := Run(first.next, autoQuit, trace[1..]);
      StepStopsOnDelay(s, autoQuit, trace[0]);
      CountAppend(first.commands, rest.commands, StopSimulation);
      PassesDelayCons(trace, s.stopDelay);
      if Count(first.commands, StopSimulation) == 1 {
        NeverStopsWhenDisarmed(first.next, autoQuit, trace[1..]);
      } else if s.stopDelay > 0 && (s.autoStarted || s.autoStart) {
        StopFiresAtMostOnce(first.next, autoQuit, trace[1..]);
      } else {
        NeverStopsWhenDisarmed(first.next, autoQuit, trace[1..]);
      }
    }
  }

  /** Some observation of the trace is the stopped state at a time when, counting from
      `runCount`, exactly one run has been counted. */
  predicate StoppedAfterOneRun(runCount: int, trace: seq<Observation>)
  {
    exists i :: 0 <= i < |trace| && trace[i].state == Stopped && runCount + RunsObserved(trace[..i]) == 1
  }

  lemma StoppedAfterOneRunCons(runCount: int, trace: seq<Observation>)
    requires |trace| > 0
    ensures StoppedAfterOneRun(runCount, trace) <==>
              (trace[0].state == Stopped && runCount == 1)
              || StoppedAfterOneRun(runCount + (if trace[0].state == AdvancingFirstAfterStop then 1 else 0), trace[1..])
  {
    var tail := trace[1..];
    var here := if trace[0].state == AdvancingFirstAfterStop then 1 else 0;
    forall i | 1 <= i <= |trace|
      ensures RunsObserved(trace[..i]) == here + RunsObserved(tail[..i - 1])
    {
      assert trace[..i][1..] == tail[..i - 1];
    }
    assert RunsObserved(trace[..0]) == 0;
    if StoppedAfterOneRun(runCount, trace) {
      var i :| 0 <= i < |trace| && trace[i].state == Stopped && runCount + RunsObserved(trace[..i]) == 1;
      if i > 0 {
        assert tail[i - 1] == trace[i];
      }
    }
    if StoppedAfterOneRun(runCount + here, tail) {
      var j :| 0 <= j < |tail| && tail[j].state == Stopped && runCount + here + RunsObserved(tail[..j]) == 1;
      assert trace[j + 1] == tail[j];
    }
  }

  /** An exit request is posted exactly when auto-quit is set and some iteration observes
      the stopped state at a time when exactly one run has been counted. */
  lemma {:induction false} ExitAfterFirstRun(s: ThreadState, autoQuit: bool, trace: seq<Observation>)
    ensures Count(Run(s, autoQuit, trace).commands, PostExitRequest) > 0 <==>
              autoQuit && StoppedAfterOneRun(s.runCount, trace)
    decreases |trace|
  {
    if |trace| > 0 {
      var first := Step(s, autoQuit, trace[0]);
      var rest := Run(first.next, autoQuit, trace[1..]);
      StepRequestsExit(s, autoQuit, trace[0]);
      StepCountsRun(s, autoQuit, trace[0]);
      CountAppend(first.commands, rest.commands, PostExitRequest);
      ExitAfterFirstRun(first.next, autoQuit, trace[1..]);
      StoppedAfterOneRunCons(s.runCount, trace);
    }
  }

  /** A prefix of a trace observes no more runs than the whole trace. */
  lemma {:induction false} PrefixRuns(trace: seq<Observation>, i: nat)
    requires i <= |trace|
    ensures RunsObserved(trace[..i]) <= RunsObserved(trace)
    decreases i
  {
    if i > 0 {
      PrefixRuns(trace[1..], i - 1);
      assert trace[..i][1..] == trace[1..][..i - 1];
    }
  }

  /** A thread that starts from its initial state posts no exit request while no run has
      been observed, whatever auto-quit says. */
  lemma NoExitBeforeFirstRun(pending: string, autoStart: bool, stopDelay: int, autoQuit: bool,
                             trace: seq<Observation>)
    requires RunsObserved(trace) == 0
    ensures Count(Run(Initial(pending, autoStart, stopDelay), autoQuit, trace).commands, PostExitRequest) == 0
  {
    ExitAfterFirstRun(Initial(pending, autoStart, stopDelay), autoQuit, trace);
    forall i | 0 <= i <= |trace| ensures RunsObserved(trace[..i]) == 0 {
      PrefixRuns(trace, i);
    }
  }

  /** Once two or more runs have been counted, no exit request is ever posted. */
  lemma {:induction false} NoExitAfterSecondRun(s: ThreadState, autoQuit: bool, trace: seq<Observation>)
    requires s.runCount >= 2
    ensures Count(Run(s, autoQuit, trace).commands, PostExitRequest) == 0
    decreases |trace|
  {
    if |trace| > 0 {
      var first := Step(s, autoQuit, trace[0]);
      var rest := Run(first.next, autoQuit, trace[1..]);
      StepRequestsExit(s, autoQuit, trace[0]);
      StepCountsRun(s, autoQuit, trace[0]);
      NoExitAfterSecondRun(first.next, autoQuit, trace[1..]);
      CountAppend(first.commands, rest.commands, PostExitRequest);
    }
  }

  lemma LoadsKeepEngineUp(path: string)
    ensures Count(LoadCommands(path), Initialize) == 0 && Count(LoadCommands(path), Deinitialize) == 0
  {
    NoRankCount(LoadCommands(path), Initialize);
    NoRankCount(LoadCommands(path), Deinitialize);
  }

  lemma ControlKeepsEngineUp(start: bool, exit: bool, stop: bool)
    ensures Count(ControlCommands(start, exit, stop), Initialize) == 0
    ensures Count(ControlCommands(start, exit, stop), Deinitialize) == 0
  {
    ControlInOrder(start, exit, stop);
    NoRankCount(ControlCommands(start, exit, stop), Initialize);
    NoRankCount(ControlCommands(start, exit, stop), Deinitialize);
  }

  /** No iteration, and so no run of the loop, initializes or deinitializes the engine. */
  lemma StepKeepsEngineUp(s: ThreadState, autoQuit: bool, obs: Observation)
    ensures Count(Step(s, autoQuit, obs).commands, Initialize) == 0
    ensures Count(Step(s, autoQuit, obs).commands, Deinitialize) == 0
  {
    var loads := LoadCommands(s.pending);
    var control := ControlCommands(s.autoStart, Exits(s, autoQuit, obs), Fires(s, obs));
    LoadsKeepEngineUp(s.pending);
    ControlKeepsEngineUp(s.autoStart, Exits(s, autoQuit, obs), Fires(s, obs));
    CountAppend(loads, control, Initialize);
    CountAppend(loads, control, Deinitialize);
  }

  /** A command whose rank lies outside the ranks of some commands does not occur in them. */
  lemma {:induction false} NoRankCount(cmds: seq<EngineCommand>, c: EngineCommand)
    requires forall k :: 0 <= k < |cmds| ==> Rank(cmds[k]) != Rank(c)
    ensures Count(cmds, c) == 0
    decreases |cmds|
  {
    if |cmds| > 0 {
      NoRankCount(cmds[1..], c);
    }
  }

  lemma {:induction false} RunKeepsEngineUp(s: ThreadState, autoQuit: bool, trace: seq<Observation>)
    ensures Count(Run(s, autoQuit, trace).commands, Initialize) == 0
    ensures Count(Run(s, autoQuit, trace).commands, Deinitialize) == 0
    decreases |trace|
  {
    if |trace| > 0 {
      var first := Step(s, autoQuit, trace[0]);
      StepKeepsEngineUp(s, autoQuit, trace[0]);
      RunKeepsEngineUp(first.next, autoQuit, trace[1..]);
      CountAppend(first.commands, Run(first.next, autoQuit, trace[1..]).commands, Initialize);
      CountAppend(first.commands, Run(first.next, autoQuit, trace[1..]).commands, Deinitialize);
    }
  }

  /** The whole thread function: initialize the engine, run the loop over the trace of its
      iterations, deinitialize the engine. */
  function ThreadCommands(s: ThreadState, autoQuit: bool, trace: seq<Observation>): (cmds: seq<EngineCommand>)
    ensures |cmds| >= 2 && cmds[0] == Initialize && cmds[|cmds| - 1] == Deinitialize
  {
    [Initialize] + Run(s, autoQuit, trace).commands + [Deinitialize]
  }

  /** The engine is initialized exactly once, first, and deinitialized exactly once, last;
      every other command occurs in the thread exactly as often as in its loop. */
  lemma ThreadBracketsLoop(s: ThreadState, autoQuit: bool, trace: seq<Observation>, c: EngineCommand)
    ensures Count(ThreadCommands(s, autoQuit, trace), Initialize) == 1
    ensures Count(ThreadCommands(s, autoQuit, trace), Deinitialize) == 1
    ensures c != Initialize && c != Deinitialize ==>
              Count(ThreadCommands(s, autoQuit, trace), c) == Count(Run(s, autoQuit, trace).commands, c)
    ensures LoadCount(ThreadCommands(s, autoQuit, trace)) == LoadCount(Run(s, autoQuit, trace).commands)
  {
    var loop := Run(s, autoQuit, trace).commands;
    RunKeepsEngineUp(s, autoQuit, trace);
    CountAppend([Initialize] + loop, [Deinitialize], c);
    CountAppend([Initialize], loop, c);
    CountAppend([Initialize] + loop, [Deinitialize], Initialize);
    CountAppend([Initialize], loop, Initialize);
    CountAppend([Initialize] + loop, [Deinitialize], Deinitialize);
    CountAppend([Initialize], loop, Deinitialize);
  }
}
