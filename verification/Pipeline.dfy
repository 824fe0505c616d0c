/** The fan-out/fan-in pipeline as a state machine: one step for each channel
    operation, call or return of its goroutines, in any interleaving. A send on
    or a close of a closed channel is a step that sets `panicked`. */
module Pipeline {

  datatype Result<In, Out> = Result(input: In, output: Out)

  /** The setup goroutine: inside `setupFn` with items still to add, inside
      `addWork`, and its two deferred closes. */
  datatype Setup<In> =
    | Running(todo: seq<In>)
    | Offering(item: In, todo: seq<In>)
    | Reported
    | ErrClosed
    | Finished

  datatype Worker<In, Out> = Idle | Working(input: In) | Holding(result: Result<In, Out>) | Done

  /** The caller of `run`: in the result loop, inside `resultFn`, after the
      loop, waiting for the setup's error, or back. */
  datatype Caller<In, Out> =
    | Looping
    | Calling(result: Result<In, Out>)
    | LoopDone(failed: bool)
    | Waiting(failed: bool)
    | Returned(failed: bool)

  /** A channel of one value: nothing sent yet, one value to read, or read. */
  datatype Report = Unsent | Sent(failed: bool) | Taken

  datatype State<In, Out> = State(
    setup: Setup<In>,
    workers: seq<Worker<In, Out>>,
    resultQ: seq<Result<In, Out>>,
    caller: Caller<In, Out>,
    report: Report,
    workClosed: bool,
    resultClosed: bool,
    errClosed: bool,
    term: bool,
    panicked: bool,
    accepted: seq<In>,              // items taken by workers, in order
    unoffered: seq<In>,             // items setupFn still had when it returned
    delivered: seq<Result<In, Out>>, // arguments of the calls of resultFn
    setupFailed: bool,
    resultFailed: bool)

  datatype Step =
    | Offer                         // setupFn calls addWork
    | HandOver(worker: nat)         // a worker takes the offered item
    | Refuse                        // addWork returns false
    | SetupReturns(failed: bool)
    | CloseErr
    | CloseWork
    | Work(worker: nat)             // workFn returns
    | Send(worker: nat)             // the worker sends its result
    | Exit(worker: nat)             // the worker finds workQ closed
    | CloseResults
    | Receive                       // the caller takes a result and calls resultFn
    | ResultReturns(failed: bool)
    | EndLoop                       // the caller finds resultQ closed
    | CloseTerm
    | Return

  ghost predicate Init<In, Out>(s: State<In, Out>, items: seq<In>, n: nat)
  {
    && n > 0 && |s.workers| == n && s.setup == Running(items)
    && (forall i :: 0 <= i < n ==> s.workers[i] == Idle)
    && s == State(Running(items), s.workers, [], Looping, Unsent,
                  false, false, false, false, false, [], [], [], false, false)
  }

  predicate Enabled<In, Out(==)>(s: State<In, Out>, step: Step)
  {
    match step
    case Offer => s.setup.Running? && s.setup.todo != []
    case HandOver(i) => s.setup.Offering? && i < |s.workers| && s.workers[i].Idle?
    case Refuse => s.setup.Offering? && s.term
    case SetupReturns(_) => s.setup.Running?
    case CloseErr => s.setup.Reported?
    case CloseWork => s.setup.ErrClosed?
    case Work(i) => i < |s.workers| && s.workers[i].Working?
    case Send(i) => i < |s.workers| && s.workers[i].Holding? && (s.resultClosed || |s.resultQ| < |s.workers|)
    case Exit(i) => i < |s.workers| && s.workers[i].Idle? && s.workClosed
    case CloseResults => !s.resultClosed && forall i :: 0 <= i < |s.workers| ==> s.workers[i].Done?
    case Receive => s.caller.Looping? && s.resultQ != []
    case ResultReturns(_) => s.caller.Calling?
    case EndLoop => s.caller.Looping? && s.resultQ == [] && s.resultClosed
    case CloseTerm => s.caller.LoopDone?
    case Return => s.caller.Waiting? && s.report.Sent?
  }

  function Do<In, Out(==)>(s: State<In, Out>, step: Step, work: In -> Out): State<In, Out>
    requires Enabled(s, step)
  {
    match step
    case Offer => s.(setup := Offering(s.setup.todo[0], s.setup.todo[1..]))
    case HandOver(i) =>
      s.(setup := Running(s.setup.todo), workers := s.workers[i := Working(s.setup.item)],
         accepted := s.accepted + [s.setup.item], panicked := s.panicked || s.workClosed)
    case Refuse => s.(setup := Running(s.setup.todo))
    case SetupReturns(failed) =>
      s.(setup := Reported, report := Sent(failed), setupFailed := failed, unoffered := s.setup.todo,
         panicked := s.panicked || s.errClosed)
    case CloseErr => s.(setup := ErrClosed, errClosed := true, panicked := s.panicked || s.errClosed)
    case CloseWork => s.(setup := Finished, workClosed := true, panicked := s.panicked || s.workClosed)
    case Work(i) =>
      s.(workers := s.workers[i := Holding(Result(s.workers[i].input, work(s.workers[i].input)))])
    case Send(i) =>
      s.(workers := s.workers[i := Idle], resultQ := s.resultQ + [s.workers[i].result],
         panicked := s.panicked || s.resultClosed)
    case Exit(i) => s.(workers := s.workers[i := Done])
    case CloseResults => s.(resultClosed := true)
    case Receive =>
      s.(resultQ := s.resultQ[1..], caller := Calling(s.resultQ[0]), delivered := s.delivered + [s.resultQ[0]])
    case ResultReturns(failed) =>
      s.(caller := if failed then LoopDone(true) else Looping, resultFailed := s.resultFailed || failed)
    case EndLoop => s.(caller := LoopDone(false))
    case CloseTerm => s.(caller := Waiting(s.caller.failed), term := true, panicked := s.panicked || s.term)
    case Return => s.(caller := Returned(s.caller.failed || s.report.failed), report := Taken)
  }

  // ----- what every step keeps -----

  function Inputs<In, Out>(rs: seq<Result<In, Out>>): multiset<In>
  {
    if rs == [] then multiset{} else Inputs(rs[..|rs| - 1]) + multiset{rs[|rs| - 1].input}
  }

  function ItemOf<In, Out>(w: Worker<In, Out>): multiset<In>
  {
    match w
    case Working(x) => multiset{x}
    case Holding(r) => multiset{r.input}
    case _ => multiset{}
  }

  /** The items the workers hold. */
  function Held<In, Out>(ws: seq<Worker<In, Out>>): multiset<In>
  {
    if ws == [] then multiset{} else Held(ws[..|ws| - 1]) + ItemOf(ws[|ws| - 1])
  }

  lemma HeldLast<In, Out>(ws: seq<Worker<In, Out>>, front: seq<Worker<In, Out>>, w: Worker<In, Out>)
    requires ws == front + [w]
    ensures Held(ws) == Held(front) + ItemOf(w)
  {
    assert ws[..|ws| - 1] == front;
  }

  lemma Exchange<T>(a: multiset<T>, b: multiset<T>, c: multiset<T>, x: multiset<T>, y: multiset<T>)
    requires a + x == b + y
    ensures (a + c) + x == (b + c) + y
  {
    assert (a + c) + x == (a + x) + c && (b + c) + y == (b + y) + c;
  }

  lemma Cancel<T>(a: multiset<T>, b: multiset<T>, c: multiset<T>)
    requires a + c == b + c
    ensures a == b
  {
    forall x ensures a[x] == b[x] {
      assert (a + c)[x] == (b + c)[x];
    }
  }

  lemma {:induction false} HeldUpdate<In, Out>(ws: seq<Worker<In, Out>>, i: nat, w: Worker<In, Out>)
    requires i < |ws|
    ensures Held(ws[i := w]) + ItemOf(ws[i]) == Held(ws) + ItemOf(w)
    decreases |ws|
  {
    hide Held, ItemOf;
    var n := |ws| - 1;
    HeldLast(ws, ws[..n], ws[n]);
    if i == n {
      HeldLast(ws[i := w], ws[..n], w);
    } else {
      HeldLast(ws[i := w], ws[..n][i := w], ws[n]);
      HeldUpdate(ws[..n], i, w);
      Exchange(Held(ws[..n][i := w]), Held(ws[..n]), ItemOf(ws[n]), ItemOf(ws[i]), ItemOf(w));
    }
  }

  lemma InputsLast<In, Out>(rs: seq<Result<In, Out>>, front: seq<Result<In, Out>>, r: Result<In, Out>)
    requires rs == front + [r]
    ensures Inputs(rs) == Inputs(front) + multiset{r.input}
  {
    assert rs[..|rs| - 1] == front;
  }

  lemma {:induction false} InputsFirst<In, Out>(rs: seq<Result<In, Out>>)
    requires rs != []
    ensures Inputs(rs) == multiset{rs[0].input} + Inputs(rs[1..])
    decreases |rs|
  {
    hide Inputs;
    var n := |rs| - 1;
    InputsLast(rs, rs[..n], rs[n]);
    NoInputs<In, Out>();
    if n == 0 {
      assert rs[..0] == [] && rs[1..] == [];
    } else {
      InputsFirst(rs[..n]);
      InputsLast(rs[1..], rs[..n][1..], rs[n]);
    }
  }

  lemma NoInputs<In, Out>()
    ensures Inputs<In, Out>([]) == multiset{}
  {
  }

  /** No accepted item is lost or doubled. */
  ghost predicate Conserved<In, Out>(s: State<In, Out>)
  {
    multiset(s.accepted) == Held(s.workers) + Inputs(s.resultQ) + Inputs(s.delivered)
  }

  ghost predicate Genuine<In, Out>(rs: seq<Result<In, Out>>, work: In -> Out)
  {
    forall r :: r in rs ==> r.output == work(r.input)
  }

  /** Every result is its own item's. */
  ghost predicate OwnResults<In, Out>(s: State<In, Out>, work: In -> Out)
  {
    && Genuine(s.resultQ, work) && Genuine(s.delivered, work)
    && (forall i :: 0 <= i < |s.workers| && s.workers[i].Holding? ==>
        s.workers[i].result.output == work(s.workers[i].result.input))
    && (s.caller.Calling? ==> s.delivered != [] && s.caller.result == s.delivered[|s.delivered| - 1])
  }

  /** Which channels of the setup and the caller are closed, and by whom. */
  ghost predicate Closed<In, Out>(s: State<In, Out>)
  {
    && (s.workClosed <==> s.setup.Finished?)
    && (s.errClosed <==> s.setup.ErrClosed? || s.setup.Finished?)
    && (s.report.Unsent? <==> s.setup.Running? || s.setup.Offering?)
    && (s.report.Sent? ==> s.report.failed == s.setupFailed)
    && (s.report.Taken? ==> s.caller.Returned?)
    && (s.term <==> s.caller.Waiting? || s.caller.Returned?)
  }

  /** Workers are done only when the work is, and the results only when they are. */
  ghost predicate InTurn<In, Out>(s: State<In, Out>)
  {
    && |s.workers| > 0 && |s.resultQ| <= |s.workers|
    && (forall i :: 0 <= i < |s.workers| && s.workers[i].Done? ==> s.workClosed)
    && (s.resultClosed ==> forall i :: 0 <= i < |s.workers| ==> s.workers[i].Done?)
  }

  ghost predicate Channels<In, Out>(s: State<In, Out>)
  {
    !s.panicked && Closed(s) && InTurn(s)
  }

  /** Where an error of `resultFn` leaves the caller, and what a loop that ended
      without one means. */
  ghost predicate Outcome<In, Out>(s: State<In, Out>)
  {
    && (s.resultFailed ==> s.caller.LoopDone? || s.caller.Waiting? || s.caller.Returned?)
    && (s.caller.LoopDone? || s.caller.Waiting? ==> s.caller.failed == s.resultFailed)
    && (s.caller.Returned? ==> s.report.Taken? && (s.caller.failed <==> s.resultFailed || s.setupFailed))
    && ((s.caller.LoopDone? || s.caller.Waiting? || s.caller.Returned?) && !s.resultFailed ==>
        s.resultClosed && s.resultQ == [])
  }

  ghost predicate Inv<In, Out>(s: State<In, Out>, work: In -> Out)
  {
    Conserved(s) && OwnResults(s, work) && Channels(s) && Outcome(s)
  }

  /** The items of the setup that are still to be accepted. */
  function ToCome<In, Out>(s: State<In, Out>): seq<In>
  {
    match s.setup
    case Running(todo) => todo
    case Offering(item, todo) => [item] + todo
    case _ => s.unoffered
  }

  /** Until `resultFn` fails, no item is refused. */
  ghost predicate NoneRefused<In, Out>(s: State<In, Out>, items: seq<In>)
  {
    s.resultFailed || s.accepted + ToCome(s) == items
  }

  lemma {:induction false} AllIdle<In, Out>(ws: seq<Worker<In, Out>>)
    requires forall i :: 0 <= i < |ws| ==> ws[i].Idle? || ws[i].Done?
    ensures Held(ws) == multiset{}
    decreases |ws|
  {
    if ws != [] {
      AllIdle(ws[..|ws| - 1]);
    }
  }

  lemma InitInv<In, Out>(s: State<In, Out>, items: seq<In>, n: nat, work: In -> Out)
    requires Init(s, items, n)
    ensures Inv(s, work) && NoneRefused(s, items)
  {
    AllIdle(s.workers);
  }

  lemma StepConserves<In, Out>(s: State<In, Out>, step: Step, work: In -> Out)
    requires Conserved(s) && Enabled(s, step)
    ensures Conserved(Do(s, step, work))
  {
    hide Held, Inputs, ItemOf;
    match step {
      case HandOver(i) => HandOverConserves(s, i, work);
      case Work(i) => WorkConserves(s, i, work);
      case Send(i) => SendConserves(s, i, work);
      case Exit(i) => ExitConserves(s, i, work);
      case Receive => ReceiveConserves(s, work);
      case _ =>
    }
  }

  lemma HandOverConserves<In, Out>(s: State<In, Out>, i: nat, work: In -> Out)
    requires Conserved(s) && Enabled(s, HandOver(i))
    ensures Conserved(Do(s, HandOver(i), work))
  {
    hide Held, Inputs;
    var s' := Do(s, HandOver(i), work);
    HeldUpdate(s.workers, i, s'.workers[i]);
    assert Held(s'.workers) == Held(s.workers) + multiset{s.setup.item};
    assert multiset(s'.accepted) == multiset(s.accepted) + multiset{s.setup.item};
  }

  lemma WorkConserves<In, Out>(s: State<In, Out>, i: nat, work: In -> Out)
    requires Conserved(s) && Enabled(s, Work(i))
    ensures Conserved(Do(s, Work(i), work))
  {
    hide Held, Inputs;
    var s' := Do(s, Work(i), work);
    HeldUpdate(s.workers, i, s'.workers[i]);
    Cancel(Held(s'.workers), Held(s.workers), ItemOf(s.workers[i]));
  }

  lemma SendConserves<In, Out>(s: State<In, Out>, i: nat, work: In -> Out)
    requires Conserved(s) && Enabled(s, Send(i))
    ensures Conserved(Do(s, Send(i), work))
  {
    hide Held, Inputs;
    var s' := Do(s, Send(i), work);
    HeldUpdate(s.workers, i, s'.workers[i]);
    InputsLast(s'.resultQ, s.resultQ, s.workers[i].result);
    assert Held(s'.workers) + multiset{s.workers[i].result.input} == Held(s.workers);
  }

  lemma ExitConserves<In, Out>(s: State<In, Out>, i: nat, work: In -> Out)
    requires Conserved(s) && Enabled(s, Exit(i))
    ensures Conserved(Do(s, Exit(i), work))
  {
    hide Held, Inputs;
    var s' := Do(s, Exit(i), work);
    HeldUpdate(s.workers, i, s'.workers[i]);
    Cancel(Held(s'.workers), Held(s.workers), ItemOf(s.workers[i]));
  }

  lemma ReceiveConserves<In, Out>(s: State<In, Out>, work: In -> Out)
    requires Conserved(s) && Enabled(s, Receive)
    ensures Conserved(Do(s, Receive, work))
  {
    hide Held, Inputs;
    var s' := Do(s, Receive, work);
    InputsFirst(s.resultQ);
    InputsLast(s'.delivered, s.delivered, s.resultQ[0]);
  }

  lemma StepKeepsResults<In, Out>(s: State<In, Out>, step: Step, work: In -> Out)
    requires OwnResults(s, work) && Enabled(s, step)
    ensures OwnResults(Do(s, step, work), work)
  {
    hide OwnResults;
    match step {
      case Send(i) => SendKeepsResults(s, i, work);
      case Receive => ReceiveKeepsResults(s, work);
      case _ => OtherKeepsResults(s, step, work);
    }
  }

  lemma SendKeepsResults<In, Out>(s: State<In, Out>, i: nat, work: In -> Out)
    requires OwnResults(s, work) && Enabled(s, Send(i))
    ensures OwnResults(Do(s, Send(i), work), work)
  {
    MoreGenuine(s.resultQ, s.workers[i].result, work);
    hide Genuine;
  }

  lemma ReceiveKeepsResults<In, Out>(s: State<In, Out>, work: In -> Out)
    requires OwnResults(s, work) && Enabled(s, Receive)
    ensures OwnResults(Do(s, Receive, work), work)
  {
    assert s.resultQ[0] in s.resultQ && forall r :: r in s.resultQ[1..] ==> r in s.resultQ;
    MoreGenuine(s.delivered, s.resultQ[0], work);
  }

  lemma MoreGenuine<In, Out>(rs: seq<Result<In, Out>>, r: Result<In, Out>, work: In -> Out)
    requires Genuine(rs, work) && r.output == work(r.input)
    ensures Genuine(rs + [r], work)
  {
  }

  lemma OtherKeepsResults<In, Out>(s: State<In, Out>, step: Step, work: In -> Out)
    requires OwnResults(s, work) && Enabled(s, step) && !step.Send? && !step.Receive?
    ensures OwnResults(Do(s, step, work), work)
  {
    hide Genuine;
  }

  /** In particular, nothing is sent on a closed channel and nothing is closed twice. */
  lemma StepKeepsChannels<In, Out>(s: State<In, Out>, step: Step, work: In -> Out)
    requires Channels(s) && Outcome(s) && Enabled(s, step)
    ensures Channels(Do(s, step, work)) && Outcome(Do(s, step, work))
  {
    hide Closed, InTurn, Outcome, Do, Enabled;
    StepNeverPanics(s, step, work);
    StepKeepsClosed(s, step, work);
    StepKeepsTurns(s, step, work);
    StepKeepsOutcome(s, step, work);
  }

  lemma StepNeverPanics<In, Out>(s: State<In, Out>, step: Step, work: In -> Out)
    requires Channels(s) && Enabled(s, step)
    ensures !Do(s, step, work).panicked
  {
  }

  predicate OfSetup(step: Step)
  {
    step.Offer? || step.Refuse? || step.SetupReturns? || step.CloseErr? || step.CloseWork?
  }

  predicate OfWorkers(step: Step)
  {
    step.HandOver? || step.Work? || step.Send? || step.Exit? || step.CloseResults?
  }

  lemma StepKeepsClosed<In, Out>(s: State<In, Out>, step: Step, work: In -> Out)
    requires Closed(s) && Enabled(s, step)
    ensures Closed(Do(s, step, work))
  {
    hide Closed, Enabled, Do;
    if OfSetup(step) {
      SetupKeepsClosed(s, step, work);
    } else if OfWorkers(step) {
      WorkersKeepClosed(s, step, work);
    } else {
      CallerKeepsClosed(s, step, work);
    }
  }

  lemma SetupKeepsClosed<In, Out>(s: State<In, Out>, step: Step, work: In -> Out)
    requires Closed(s) && Enabled(s, step) && OfSetup(step)
    ensures Closed(Do(s, step, work))
  {
  }

  lemma WorkersKeepClosed<In, Out>(s: State<In, Out>, step: Step, work: In -> Out)
    requires Closed(s) && Enabled(s, step) && OfWorkers(step)
    ensures Closed(Do(s, step, work))
  {
  }

  lemma CallerKeepsClosed<In, Out>(s: State<In, Out>, step: Step, work: In -> Out)
    requires Closed(s) && Enabled(s, step) && !OfSetup(step) && !OfWorkers(step)
    ensures Closed(Do(s, step, work))
  {
  }

  lemma StepKeepsTurns<In, Out>(s: State<In, Out>, step: Step, work: In -> Out)
    requires Closed(s) && InTurn(s) && Enabled(s, step)
    ensures InTurn(Do(s, step, work))
  {
    if OfWorkers(step) {
      hide Closed, InTurn, Enabled, Do;
      WorkersKeepTurns(s, step, work);
    }
  }

  lemma WorkersKeepTurns<In, Out>(s: State<In, Out>, step: Step, work: In -> Out)
    requires Closed(s) && InTurn(s) && Enabled(s, step) && OfWorkers(step)
    ensures InTurn(Do(s, step, work))
  {
  }

  lemma StepKeepsOutcome<In, Out>(s: State<In, Out>, step: Step, work: In -> Out)
    requires Closed(s) && InTurn(s) && Outcome(s) && Enabled(s, step)
    ensures Outcome(Do(s, step, work))
  {
    if OfWorkers(step) {
      hide Outcome, Closed, InTurn, Enabled, Do;
      WorkersKeepOutcome(s, step, work);
    }
  }

  lemma WorkersKeepOutcome<In, Out>(s: State<In, Out>, step: Step, work: In -> Out)
    requires InTurn(s) && Outcome(s) && Enabled(s, step) && OfWorkers(step)
    ensures Outcome(Do(s, step, work))
  {
  }

  lemma StepKeepsInv<In, Out>(s: State<In, Out>, step: Step, work: In -> Out)
    requires Inv(s, work) && Enabled(s, step)
    ensures Inv(Do(s, step, work), work)
  {
    hide Conserved, OwnResults, Channels, Outcome, Do, Enabled;
    StepConserves(s, step, work);
    StepKeepsResults(s, step, work);
    StepKeepsChannels(s, step, work);
  }

  lemma StepRefusesNone<In, Out>(s: State<In, Out>, step: Step, work: In -> Out, items: seq<In>)
    requires Inv(s, work) && NoneRefused(s, items) && Enabled(s, step)
    ensures NoneRefused(Do(s, step, work), items)
  {
    hide Inv, NoneRefused;
    match step {
      case Offer => OfferMoves(s, work, items);
      case HandOver(i) => HandOverMoves(s, i, work, items);
      case Refuse => RefusedAfterFailure(s, work, items);
      case _ => OthersMoveNothing(s, step, work, items);
    }
  }

  lemma OfferMoves<In, Out>(s: State<In, Out>, work: In -> Out, items: seq<In>)
    requires NoneRefused(s, items) && Enabled(s, Offer)
    ensures NoneRefused(Do(s, Offer, work), items)
  {
    assert s.setup.todo == [s.setup.todo[0]] + s.setup.todo[1..];
  }

  lemma HandOverMoves<In, Out>(s: State<In, Out>, i: nat, work: In -> Out, items: seq<In>)
    requires NoneRefused(s, items) && Enabled(s, HandOver(i))
    ensures NoneRefused(Do(s, HandOver(i), work), items)
  {
    assert s.accepted + ([s.setup.item] + s.setup.todo) == (s.accepted + [s.setup.item]) + s.setup.todo;
  }

  /** An item is refused only after `term` is closed, and while the setup is at
      work that is only after a failure. */
  lemma RefusedAfterFailure<In, Out>(s: State<In, Out>, work: In -> Out, items: seq<In>)
    requires Inv(s, work) && NoneRefused(s, items) && Enabled(s, Refuse)
    ensures NoneRefused(Do(s, Refuse, work), items)
  {
    hide Conserved, OwnResults;
    assert s.workers[0].Done? ==> s.workClosed;
  }

  lemma OthersMoveNothing<In, Out>(s: State<In, Out>, step: Step, work: In -> Out, items: seq<In>)
    requires NoneRefused(s, items) && Enabled(s, step) && !step.Offer? && !step.HandOver? && !step.Refuse?
    ensures NoneRefused(Do(s, step, work), items)
  {
  }

  // ----- whole runs -----

  /** The states of a run, each made from the one before by an enabled step. */
  ghost predicate IsRun<In, Out>(states: seq<State<In, Out>>, steps: seq<Step>, work: In -> Out)
  {
    && |states| == |steps| + 1
    && forall k :: 0 <= k < |steps| ==> Enabled(states[k], steps[k]) && states[k + 1] == Do(states[k], steps[k], work)
  }

  lemma RunStep<In, Out>(states: seq<State<In, Out>>, steps: seq<Step>, work: In -> Out, k: nat)
    requires IsRun(states, steps, work) && k < |steps|
    ensures |states| == |steps| + 1 && Enabled(states[k], steps[k]) && states[k + 1] == Do(states[k], steps[k], work)
  {
    hide Enabled, Do;
  }

  /** Every state of every run keeps the invariants. */
  lemma {:induction false} RunKeepsInv<In, Out>(states: seq<State<In, Out>>, steps: seq<Step>, work: In -> Out,
                                                items: seq<In>, n: nat, k: nat)
    requires IsRun(states, steps, work) && |states| > 0 && Init(states[0], items, n) && k < |states|
    ensures Inv(states[k], work) && NoneRefused(states[k], items)
    decreases k
  {
    hide *;
    if k == 0 {
      InitInv(states[0], items, n, work);
    } else {
      RunKeepsInv(states, steps, work, items, n, k - 1);
      RunLength(states, steps, work);
      RunStep(states, steps, work, k - 1);
      StepKeepsInv(states[k - 1], steps[k - 1], work);
      StepRefusesNone(states[k - 1], steps[k - 1], work, items);
    }
  }

  lemma RunLength<In, Out>(states: seq<State<In, Out>>, steps: seq<Step>, work: In -> Out)
    requires IsRun(states, steps, work)
    ensures |states| == |steps| + 1
  {
  }

  // ----- what the caller gets -----

  /** Once `run` is back without an error of `resultFn`, whatever the setup
      reported: each item accepted was delivered exactly once, with its own
      result; only items that the setup never offered are missing; and every
      goroutine has finished. */
  lemma CleanReturn<In, Out>(s: State<In, Out>, work: In -> Out, items: seq<In>)
    requires Inv(s, work) && NoneRefused(s, items) && s.caller.Returned? && !s.resultFailed
    ensures Inputs(s.delivered) == multiset(s.accepted) && Genuine(s.delivered, work)
    ensures s.accepted + s.unoffered == items
    ensures s.setup.Finished? && forall i :: 0 <= i < |s.workers| ==> s.workers[i].Done?
    ensures s.caller.failed == s.setupFailed
  {
    AllIdle(s.workers);
    assert s.workers[0].Done?;
  }

  lemma StepAfterError<In, Out>(s: State<In, Out>, step: Step, work: In -> Out)
    requires Outcome(s) && Enabled(s, step) && s.resultFailed
    ensures Do(s, step, work).resultFailed && Do(s, step, work).delivered == s.delivered
  {
    match step {
      case Receive =>
      case ResultReturns(_) =>
      case _ =>
    }
  }

  /** After an error, `resultFn` is never called again. */
  lemma {:induction false} NoCallAfterError<In, Out>(states: seq<State<In, Out>>, steps: seq<Step>, work: In -> Out,
                                                     items: seq<In>, n: nat, j: nat, k: nat)
    requires IsRun(states, steps, work) && |states| > 0 && Init(states[0], items, n)
    requires j <= k < |states| && states[j].resultFailed
    ensures states[k].resultFailed && states[k].delivered == states[j].delivered
    decreases k
  {
    hide *;
    if j < k {
      NoCallAfterError(states, steps, work, items, n, j, k - 1);
      RunKeepsInv(states, steps, work, items, n, k - 1);
      RunLength(states, steps, work);
      RunStep(states, steps, work, k - 1);
      OutcomeHolds(states[k - 1], work);
      StepAfterError(states[k - 1], steps[k - 1], work);
    }
  }

  /** A worker waits to send its result only while as many results are queued as there
      are workers; so the first of them never waits. */
  lemma SendWaits<In, Out>(s: State<In, Out>, i: nat, work: In -> Out)
    requires Inv(s, work) && i < |s.workers| && s.workers[i].Holding?
    ensures Enabled(s, Send(i)) <==> |s.resultQ| != |s.workers|
    ensures s.resultQ == [] ==> Enabled(s, Send(i))
  {
    hide Conserved, OwnResults, Outcome, Closed;
  }

  // ----- the order of delivery -----

  /** What a step sends. */
  function SentIn<In, Out(==)>(s: State<In, Out>, step: Step): seq<Result<In, Out>>
    requires Enabled(s, step)
  {
    if step.Send? then [s.workers[step.worker].result] else []
  }

  lemma StepKeepsOrder<In, Out>(s: State<In, Out>, step: Step, work: In -> Out)
    requires Enabled(s, step)
    ensures var t := Do(s, step, work); t.delivered + t.resultQ == s.delivered + s.resultQ + SentIn(s, step)
  {
    hide Do, Enabled, SentIn;
    if OfSetup(step) {
      SetupKeepsOrder(s, step, work);
    } else if OfWorkers(step) {
      WorkersKeepOrder(s, step, work);
    } else {
      CallerKeepsOrder(s, step, work);
    }
  }

  lemma SetupKeepsOrder<In, Out>(s: State<In, Out>, step: Step, work: In -> Out)
    requires Enabled(s, step) && OfSetup(step)
    ensures Do(s, step, work).delivered == s.delivered && Do(s, step, work).resultQ == s.resultQ
    ensures SentIn(s, step) == []
  {
    match step {
      case Offer =>
      case Refuse =>
      case SetupReturns(_) =>
      case CloseErr =>
      case CloseWork =>
    }
  }

  lemma WorkersKeepOrder<In, Out>(s: State<In, Out>, step: Step, work: In -> Out)
    requires Enabled(s, step) && OfWorkers(step)
    ensures Do(s, step, work).delivered == s.delivered
    ensures Do(s, step, work).resultQ == s.resultQ + SentIn(s, step)
  {
    if !step.Send? {
      assert SentIn(s, step) == [];
    }
  }

  lemma CallerKeepsOrder<In, Out>(s: State<In, Out>, step: Step, work: In -> Out)
    requires Enabled(s, step) && !OfSetup(step) && !OfWorkers(step)
    ensures var t := Do(s, step, work);
            t.delivered + t.resultQ == s.delivered + s.resultQ && SentIn(s, step) == []
  {
    if step.Receive? {
      assert s.resultQ == [s.resultQ[0]] + s.resultQ[1..];
    }
  }

  /** The results sent in the first `k` steps of a run, in order. */
  function SentOf<In, Out(==)>(states: seq<State<In, Out>>, steps: seq<Step>, k: nat): seq<Result<In, Out>>
    requires k <= |steps| < |states| && forall j :: 0 <= j < |steps| ==> Enabled(states[j], steps[j])
  {
    if k == 0 then [] else SentOf(states, steps, k - 1) + SentIn(states[k - 1], steps[k - 1])
  }

  lemma RunIsEnabled<In, Out>(states: seq<State<In, Out>>, steps: seq<Step>, work: In -> Out)
    requires IsRun(states, steps, work)
    ensures |steps| < |states| && forall j :: 0 <= j < |steps| ==> Enabled(states[j], steps[j])
  {
    hide Enabled, Do;
  }

  /** First in, first out: in every state of every run the results delivered and those
      still queued are those sent, in the order in which they were sent. */
  lemma {:induction false} InOrderOfSending<In, Out>(states: seq<State<In, Out>>, steps: seq<Step>, work: In -> Out,
                                                     items: seq<In>, n: nat, k: nat)
    requires IsRun(states, steps, work) && |states| > 0 && Init(states[0], items, n) && k < |states|
    ensures |steps| < |states| && forall j :: 0 <= j < |steps| ==> Enabled(states[j], steps[j])
    ensures k <= |steps| && states[k].delivered + states[k].resultQ == SentOf(states, steps, k)
    decreases k
  {
    hide Enabled, Do, SentIn;
    RunIsEnabled(states, steps, work);
    RunLength(states, steps, work);
    if k > 0 {
      InOrderOfSending(states, steps, work, items, n, k - 1);
      RunStep(states, steps, work, k - 1);
      StepKeepsOrder(states[k - 1], steps[k - 1], work);
    }
  }

  // ----- progress -----

  /** Before `run` is back, some goroutine can always take a step. */
  lemma NeverStuck<In, Out>(s: State<In, Out>, work: In -> Out)
    requires Inv(s, work) && !s.caller.Returned?
    ensures exists step :: Enabled(s, step)
  {
    hide Conserved, OwnResults;
    if s.caller.Calling? {
      assert Enabled(s, ResultReturns(false));
    } else if s.caller.LoopDone? {
      assert Enabled(s, CloseTerm);
    } else if s.caller.Waiting? {
      if s.report.Sent? {
        assert Enabled(s, Return);
      } else {
        assert if s.setup.Running? then Enabled(s, SetupReturns(false)) else Enabled(s, Refuse);
      }
    } else if s.resultQ != [] {
      assert Enabled(s, Receive);
    } else if s.resultClosed {
      assert Enabled(s, EndLoop);
    } else {
      WorkersCanStep(s);
    }
  }

  /** While the caller waits for results, the workers or the setup can step. */
  lemma WorkersCanStep<In, Out>(s: State<In, Out>)
    requires Channels(s) && s.resultQ == [] && !s.resultClosed
    ensures exists step :: Enabled(s, step)
  {
    if i :| 0 <= i < |s.workers| && s.workers[i].Working? {
      assert Enabled(s, Work(i));
    } else if i :| 0 <= i < |s.workers| && s.workers[i].Holding? {
      assert Enabled(s, Send(i));
    } else if i :| 0 <= i < |s.workers| && s.workers[i].Idle? {
      match s.setup {
        case Running(_) => assert Enabled(s, SetupReturns(false));
        case Offering(_, _) => assert Enabled(s, HandOver(i));
        case Reported => assert Enabled(s, CloseErr);
        case ErrClosed => assert Enabled(s, CloseWork);
        case Finished => assert Enabled(s, Exit(i));
      }
    } else {
      assert Enabled(s, CloseResults);
    }
  }

  /** How much work is left, at most. */
  function SetupLeft<In>(setup: Setup<In>): nat
  {
    match setup
    case Running(todo) => 6 * |todo| + 3
    case Offering(_, todo) => 6 * |todo| + 8
    case Reported => 2
    case ErrClosed => 1
    case Finished => 0
  }

  function WorkerLeft<In, Out>(w: Worker<In, Out>): nat
  {
    match w
    case Working(_) => 5
    case Holding(_) => 4
    case Idle => 1
    case Done => 0
  }

  function WorkersLeft<In, Out>(ws: seq<Worker<In, Out>>): nat
  {
    if ws == [] then 0 else WorkersLeft(ws[..|ws| - 1]) + WorkerLeft(ws[|ws| - 1])
  }

  function CallerLeft<In, Out>(c: Caller<In, Out>): nat
  {
    match c
    case Looping => 3
    case Calling(_) => 4
    case LoopDone(_) => 2
    case Waiting(_) => 1
    case Returned(_) => 0
  }

  function Left<In, Out>(s: State<In, Out>): nat
  {
    SetupLeft(s.setup) + WorkersLeft(s.workers) + 2 * |s.resultQ| + CallerLeft(s.caller) +
      (if s.resultClosed then 0 else 1)
  }

  lemma {:induction false} WorkersLeftUpdate<In, Out>(ws: seq<Worker<In, Out>>, i: nat, w: Worker<In, Out>)
    requires i < |ws|
    ensures WorkersLeft(ws[i := w]) + WorkerLeft(ws[i]) == WorkersLeft(ws) + WorkerLeft(w)
    decreases |ws|
  {
    var n := |ws| - 1;
    if i == n {
      assert ws[i := w][..n] == ws[..n];
    } else {
      assert ws[i := w][..n] == ws[..n][i := w];
      WorkersLeftUpdate(ws[..n], i, w);
    }
  }

  /** Every step of every goroutine uses some of it up. */
  lemma StepsUseUp<In, Out>(s: State<In, Out>, step: Step, work: In -> Out)
    requires Enabled(s, step)
    ensures Left(Do(s, step, work)) < Left(s)
  {
    hide WorkersLeft;
    match step {
      case HandOver(i) => WorkersLeftUpdate(s.workers, i, Working(s.setup.item));
      case Work(i) => WorkUsesUp(s, i, work);
      case Send(i) => WorkersLeftUpdate(s.workers, i, Idle);
      case Exit(i) => WorkersLeftUpdate(s.workers, i, Done);
      case _ =>
    }
  }

  lemma WorkUsesUp<In, Out>(s: State<In, Out>, i: nat, work: In -> Out)
    requires Enabled(s, Work(i))
    ensures Left(Do(s, Work(i), work)) < Left(s)
  {
    hide WorkersLeft;
    WorkersLeftUpdate(s.workers, i, Do(s, Work(i), work).workers[i]);
  }

  /** So every run is at most that long, and one that cannot go on has returned. */
  lemma {:induction false} RunsEnd<In, Out>(states: seq<State<In, Out>>, steps: seq<Step>, work: In -> Out,
                                            items: seq<In>, n: nat)
    requires IsRun(states, steps, work) && |states| > 0 && Init(states[0], items, n)
    ensures |steps| <= Left(states[0])
    ensures var last := states[|states| - 1];
            (forall step :: !Enabled(last, step)) ==> last.caller.Returned? && !last.panicked
  {
    hide *;
    RunLength(states, steps, work);
    StepsCounted(states, steps, work, |steps|);
    var last := states[|states| - 1];
    RunKeepsInv(states, steps, work, items, n, |states| - 1);
    NotPanicked(last, work);
    if !last.caller.Returned? {
      NeverStuck(last, work);
    }
  }

  lemma OutcomeHolds<In, Out>(s: State<In, Out>, work: In -> Out)
    requires Inv(s, work)
    ensures Outcome(s)
  {
    hide Outcome;
  }

  lemma NotPanicked<In, Out>(s: State<In, Out>, work: In -> Out)
    requires Inv(s, work)
    ensures !s.panicked
  {
  }

  lemma {:induction false} StepsCounted<In, Out>(states: seq<State<In, Out>>, steps: seq<Step>, work: In -> Out, k: nat)
    requires IsRun(states, steps, work) && k <= |steps| && |states| == |steps| + 1
    ensures k + Left(states[k]) <= Left(states[0])
    decreases k
  {
    hide *;
    if k > 0 {
      StepsCounted(states, steps, work, k - 1);
      RunStep(states, steps, work, k - 1);
      StepsUseUp(states[k - 1], steps[k - 1], work);
    }
  }
}
