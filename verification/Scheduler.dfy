/** The scheduler of asynchronous tasks, before shutdown: one token, one task
    at a time. Each step is one channel operation of a caller of `TryNow`, of
    the work loop, or of whoever reads a task's error channel. */
module Scheduler {

  /** How a task's function ends. A task without a function just returns. */
  datatype Ending = ReturnsNil | ReturnsError | Panics

  /** A task's error channel, with room for one value, and what became of it:
      `sent` lists the values ever sent, true standing for an error. */
  datatype Task = Task(name: string, buffered: seq<bool>, sent: seq<bool>, closed: bool)

  datatype Loop =
    | Waiting
    | Working(task: nat)
    | Reporting(task: nat, failed: bool)
    | ClosingErr(task: nat)
    | Releasing

  datatype State = State(
    status: string,
    tokens: nat,          // values in tokenCh, which has room for one
    senders: seq<nat>,    // callers that hold the token and have not sent their task
    queue: seq<nat>,      // taskCh, which has room for one
    loop: Loop,
    tasks: seq<Task>,
    panicked: bool)       // a send on, or a close of, a closed channel

  datatype Step =
    | Accept(name: string)
    | Enqueue
    | Take
    | End(ending: Ending)
    | Report
    | CloseErr
    | Release
    | ReadErr(task: nat)

  const READY := "ready"

  function Init(): State { State(READY, 0, [], [], Waiting, [], false) }

  /** Whether `TryNow` gets the token now; otherwise it returns false at once. */
  predicate Accepting(s: State) { s.tokens < 1 }

  predicate Enabled(s: State, step: Step)
  {
    match step
    case Accept(_) => Accepting(s)
    case Enqueue => s.senders != [] && |s.queue| < 1
    case Take => s.loop.Waiting? && s.queue != []
    case End(_) => s.loop.Working?
    case Report =>
      s.loop.Reporting? && s.loop.task < |s.tasks| &&
      (s.tasks[s.loop.task].closed || |s.tasks[s.loop.task].buffered| < 1)
    case CloseErr => s.loop.ClosingErr? && s.loop.task < |s.tasks|
    case Release => s.loop.Releasing? && s.tokens > 0
    case ReadErr(t) => t < |s.tasks| && s.tasks[t].buffered != []
  }

  function Do(s: State, step: Step): State
    requires Enabled(s, step)
  {
    match step
    case Accept(name) =>
      s.(tokens := s.tokens + 1, senders := s.senders + [|s.tasks|], tasks := s.tasks + [Task(name, [], [], false)])
    case Enqueue => s.(senders := s.senders[1..], queue := s.queue + [s.senders[0]])
    case Take =>
      var t := s.queue[0];
      var name := if t < |s.tasks| then s.tasks[t].name else "";
      s.(queue := s.queue[1..], loop := Working(t), status := if name == "" then "busy" else name)
    case End(ending) => s.(loop := Reporting(s.loop.task, ending != ReturnsNil))
    case Report =>
      var t := s.tasks[s.loop.task];
      s.(loop := ClosingErr(s.loop.task), panicked := s.panicked || t.closed,
         tasks := s.tasks[s.loop.task := t.(buffered := t.buffered + [s.loop.failed],
                                            sent := t.sent + [s.loop.failed])])
    case CloseErr =>
      var t := s.tasks[s.loop.task];
      s.(loop := Releasing, panicked := s.panicked || t.closed, tasks := s.tasks[s.loop.task := t.(closed := true)],
         status := READY)
    case Release => s.(loop := Waiting, tokens := s.tokens - 1)
    case ReadErr(t) => s.(tasks := s.tasks[t := s.tasks[t].(buffered := s.tasks[t].buffered[1..])])
  }

  function Busy(loop: Loop): nat
  {
    if loop.Waiting? then 0 else 1
  }

  /** The token is held by a caller about to send its task, or stands for the
      queued task, or for the running one. */
  ghost predicate OneToken(s: State)
  {
    s.tokens == |s.senders| + |s.queue| + Busy(s.loop) <= 1
  }

  ghost predicate Unstarted(s: State, t: nat)
  {
    t < |s.tasks| && !s.tasks[t].closed && s.tasks[t].sent == [] && s.tasks[t].buffered == []
  }

  /** Tasks that have not come to an end. */
  ghost predicate Unfinished(s: State, t: nat)
  {
    t in s.senders || t in s.queue || ((s.loop.Working? || s.loop.Reporting? || s.loop.ClosingErr?) && s.loop.task == t)
  }

  ghost predicate TasksKept(s: State)
  {
    && !s.panicked
    && (forall t :: t in s.senders || t in s.queue ==> Unstarted(s, t))
    && (s.loop.Working? || s.loop.Reporting? ==> Unstarted(s, s.loop.task))
    && (s.loop.ClosingErr? ==>
        s.loop.task < |s.tasks| && |s.tasks[s.loop.task].sent| == 1 && !s.tasks[s.loop.task].closed)
    && (forall t :: 0 <= t < |s.tasks| && !Unfinished(s, t) ==> s.tasks[t].closed && |s.tasks[t].sent| == 1)
    && (forall t :: 0 <= t < |s.tasks| ==> |s.tasks[t].buffered| <= |s.tasks[t].sent|)
  }

  ghost predicate StatusShown(s: State)
  {
    match s.loop
    case Waiting => s.status == READY
    case Releasing => s.status == READY
    case Working(t) => t < |s.tasks| && s.status == if s.tasks[t].name == "" then "busy" else s.tasks[t].name
    case Reporting(t, _) => t < |s.tasks| && s.status == if s.tasks[t].name == "" then "busy" else s.tasks[t].name
    case ClosingErr(t) => t < |s.tasks| && s.status == if s.tasks[t].name == "" then "busy" else s.tasks[t].name
  }

  ghost predicate Inv(s: State)
  {
    OneToken(s) && TasksKept(s) && StatusShown(s)
  }

  lemma StepKeepsToken(s: State, step: Step)
    requires OneToken(s) && Enabled(s, step)
    ensures OneToken(Do(s, step))
  {
  }

  lemma StepKeepsTasks(s: State, step: Step)
    requires OneToken(s) && TasksKept(s) && Enabled(s, step)
    ensures TasksKept(Do(s, step))
  {
    hide OneToken, TasksKept, Enabled, Do;
    match step {
      case Accept(name) => AcceptKeepsTasks(s, name);
      case Report => ReportKeepsTasks(s);
      case CloseErr => CloseKeepsTasks(s);
      case ReadErr(t) => ReadKeepsTasks(s, t);
      case Enqueue => EnqueueKeepsTasks(s);
      case Take => TakeKeepsTasks(s);
      case End(ending) => EndKeepsTasks(s, ending);
      case Release => ReleaseKeepsTasks(s);
    }
  }

  lemma AcceptKeepsTasks(s: State, name: string)
    requires OneToken(s) && TasksKept(s) && Enabled(s, Accept(name))
    ensures TasksKept(Do(s, Accept(name)))
  {
  }

  lemma ReportKeepsTasks(s: State)
    requires OneToken(s) && TasksKept(s) && Enabled(s, Report)
    ensures TasksKept(Do(s, Report))
  {
  }

  lemma CloseKeepsTasks(s: State)
    requires OneToken(s) && TasksKept(s) && Enabled(s, CloseErr)
    ensures TasksKept(Do(s, CloseErr))
  {
  }

  lemma ReadKeepsTasks(s: State, t: nat)
    requires OneToken(s) && TasksKept(s) && Enabled(s, ReadErr(t))
    ensures TasksKept(Do(s, ReadErr(t)))
  {
  }

  lemma EnqueueKeepsTasks(s: State)
    requires OneToken(s) && TasksKept(s) && Enabled(s, Enqueue)
    ensures TasksKept(Do(s, Enqueue))
  {
    assert s.senders == [s.senders[0]] && s.queue == [];
    assert forall t :: Unfinished(Do(s, Enqueue), t) <==> Unfinished(s, t);
  }

  lemma TakeKeepsTasks(s: State)
    requires OneToken(s) && TasksKept(s) && Enabled(s, Take)
    ensures TasksKept(Do(s, Take))
  {
    assert s.senders == [] && s.queue == [s.queue[0]];
    assert forall t :: Unfinished(Do(s, Take), t) <==> Unfinished(s, t);
  }

  lemma EndKeepsTasks(s: State, ending: Ending)
    requires OneToken(s) && TasksKept(s) && Enabled(s, End(ending))
    ensures TasksKept(Do(s, End(ending)))
  {
  }

  lemma ReleaseKeepsTasks(s: State)
    requires OneToken(s) && TasksKept(s) && Enabled(s, Release)
    ensures TasksKept(Do(s, Release))
  {
  }

  lemma StepKeepsStatus(s: State, step: Step)
    requires Inv(s) && Enabled(s, step)
    ensures StatusShown(Do(s, step))
  {
    if step.Take? {
      assert Unstarted(s, s.queue[0]);
    }
  }

  ghost predicate IsRun(states: seq<State>, steps: seq<Step>)
  {
    && |states| == |steps| + 1 && states[0] == Init()
    && forall k :: 0 <= k < |steps| ==> Enabled(states[k], steps[k]) && states[k + 1] == Do(states[k], steps[k])
  }

  /** In every state of every run the token is accounted for, no closed channel
      is used, and the status names the task at work. */
  lemma {:induction false} RunKeepsInv(states: seq<State>, steps: seq<Step>, k: nat)
    requires IsRun(states, steps) && k < |states|
    ensures Inv(states[k])
    decreases k
  {
    if k > 0 {
      RunKeepsInv(states, steps, k - 1);
      hide TasksKept, StatusShown, OneToken, Do, Enabled;
      StepKeepsToken(states[k - 1], steps[k - 1]);
      StepKeepsTasks(states[k - 1], steps[k - 1]);
      StepKeepsStatus(states[k - 1], steps[k - 1]);
    }
  }

  /** The status is the name of the task at work, "busy" if it has none, or "ready". */
  lemma StatusMeaning(s: State)
    requires Inv(s)
    ensures s.loop.Waiting? || s.loop.Releasing? ==> s.status == "ready"
    ensures s.loop.Working? || s.loop.Reporting? || s.loop.ClosingErr? ==>
              && s.loop.task < |s.tasks|
              && s.status == if s.tasks[s.loop.task].name == "" then "busy" else s.tasks[s.loop.task].name
  {
    hide OneToken, TasksKept;
  }

  /** The names of the tasks accepted in some steps, in order. */
  function Accepted(steps: seq<Step>): seq<string>
  {
    if steps == [] then []
    else
      var step := steps[|steps| - 1];
      Accepted(steps[..|steps| - 1]) + if step.Accept? then [step.name] else []
  }

  lemma StepKeepsNames(s: State, step: Step)
    requires Enabled(s, step)
    ensures |Do(s, step).tasks| == |s.tasks| + if step.Accept? then 1 else 0
    ensures forall t :: 0 <= t < |s.tasks| ==> Do(s, step).tasks[t].name == s.tasks[t].name
    ensures step.Accept? ==> Do(s, step).tasks[|s.tasks|].name == step.name
  {
  }

  /** The tasks of any state of a run are those accepted so far, under the names given. */
  lemma {:induction false} TasksAreAccepted(states: seq<State>, steps: seq<Step>, k: nat)
    requires IsRun(states, steps) && k < |states|
    ensures |states| == |steps| + 1 && |states[k].tasks| == |Accepted(steps[..k])|
    ensures forall t :: 0 <= t < |states[k].tasks| ==> states[k].tasks[t].name == Accepted(steps[..k])[t]
    decreases k
  {
    if k > 0 {
      TasksAreAccepted(states, steps, k - 1);
      StepKeepsNames(states[k - 1], steps[k - 1]);
      hide Do, Enabled;
      assert steps[..k][..k - 1] == steps[..k - 1];
    }
  }

  /** At most one accepted task is unfinished. */
  lemma OneTaskAtATime(s: State, t: nat, u: nat)
    requires Inv(s) && Unfinished(s, t) && Unfinished(s, u)
    ensures t == u && !Accepting(s)
  {
  }

  /** The sends and the receive that follow a won token never block. */
  lemma NeverBlocks(s: State)
    requires Inv(s)
    ensures s.senders != [] ==> Enabled(s, Enqueue)
    ensures s.loop.Reporting? ==> Enabled(s, Report)
    ensures s.loop.Releasing? ==> Enabled(s, Release)
  {
  }

  /** A task that has come to an end delivered exactly one value, before its channel was closed. */
  lemma EndedTasks(s: State, t: nat)
    requires Inv(s) && t < |s.tasks|
    ensures s.tasks[t].closed ==> |s.tasks[t].sent| == 1
    ensures !Unfinished(s, t) ==> s.tasks[t].closed
  {
  }

  /** The value is an error exactly when the function returned one or panicked. */
  lemma ValueOfTask(s: State, ending: Ending)
    requires Inv(s) && Enabled(s, End(ending))
    ensures var after := Do(s, End(ending));
            Enabled(after, Report) && var t := s.loop.task;
            Do(after, Report).tasks[t].sent == [ending != ReturnsNil]
  {
  }

  /** Steps left until the accepted task has ended and the token is free again. */
  function StepsLeft(s: State): nat
  {
    if s.senders != [] then 6
    else if s.queue != [] then 5
    else match s.loop
      case Working(_) => 4
      case Reporting(_, _) => 3
      case ClosingErr(_) => 2
      case Releasing => 1
      case Waiting => 0
  }

  /** An accepted task always comes to its end: until the token is free, a step
      of the task's own is possible, and each such step brings the end nearer;
      reading error channels does not put it off. */
  lemma TasksEnd(s: State)
    requires Inv(s)
    ensures s.tokens > 0 ==> exists step :: Enabled(s, step) && !step.Accept? && !step.ReadErr?
    ensures forall step :: Enabled(s, step) && !step.Accept? && !step.ReadErr? ==>
              StepsLeft(Do(s, step)) == StepsLeft(s) - 1
    ensures forall step :: Enabled(s, step) && step.ReadErr? ==> StepsLeft(Do(s, step)) == StepsLeft(s)
    ensures StepsLeft(s) == 0 <==> Accepting(s)
  {
    if s.tokens > 0 {
      NeverBlocks(s);
      if s.senders == [] {
        if s.queue != [] {
          assert Enabled(s, Take);
        } else {
          match s.loop {
            case Working(_) => assert Enabled(s, End(ReturnsNil));
            case Reporting(_, _) => assert Enabled(s, Report);
            case ClosingErr(_) => assert Enabled(s, CloseErr);
            case Releasing => assert Enabled(s, Release);
          }
        }
      }
    }
  }
}
