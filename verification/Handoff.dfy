/** The goroutines of an indexing run: the pipeline, whose setup, workers and
    result function share one transaction through the token. Every interleaving
    of their steps is a run of the indexer's actions. */
module Handoff {
  import P = Pipeline
  import T = Token

  type Pipe = P.State<string, ()>

  /** Goroutine 0 is the setup, 1 to n are the workers, and n + 1 is the caller:
      in the result function, and for the last commit. `pages` is how many pages of
      roots the setup has yet to read, `read` tells which workers have looked their
      object up, and `dealt` whether the caller has used the transaction for the
      result being called, or for the last commit. */
  datatype State = State(pipe: Pipe, token: T.State, pages: nat, read: seq<bool>, dealt: bool)

  datatype Move = Step(step: P.Step) | Tx(use: T.Step)

  /** What the result of parsing holds is the indexer's concern. */
  function ParseJob(path: string): ()
  {
    ()
  }

  ghost predicate Init(s: State, items: seq<string>, n: nat)
  {
    P.Init(s.pipe, items, n) && T.Init(s.token) && |s.token.places| == n + 2 && |s.read| == n
  }

  predicate Fits(s: State)
  {
    |s.token.places| == |s.pipe.workers| + 2 && |s.read| == |s.pipe.workers|
  }

  function Caller(s: State): nat
  {
    |s.pipe.workers| + 1
  }

  /** Where the program takes the transaction: to read a page; once to look up the
      object to parse; once at most in the result function; and once at most when
      the pipeline is back. */
  predicate MayTake(s: State, g: nat)
    requires Fits(s)
  {
    if g == 0 then s.pipe.setup.Running? && s.pages > 0
    else if g <= |s.pipe.workers| then s.pipe.workers[g - 1].Working? && !s.read[g - 1]
    else g == Caller(s) && (s.pipe.caller.Returned? || s.pipe.caller.Calling?) && !s.dealt
  }

  /** No function returns while it has the transaction. Parsing is not done without
      its lookup, nor the setup, unless it fails, before all pages are read. */
  predicate Ready(s: State, step: P.Step)
    requires Fits(s) && P.Enabled(s.pipe, step)
  {
    match step
    case Offer => s.token.places[0].Outside?
    case SetupReturns(failed) => s.token.places[0].Outside? && (failed || s.pages == 0)
    case CloseWork => s.token.places[0].Outside?
    case Work(i) => s.token.places[i + 1].Outside? && s.read[i]
    case Exit(i) => s.token.places[i + 1].Outside?
    case ResultReturns(_) => s.token.places[Caller(s)].Outside?
    case _ => true
  }

  predicate Enabled(s: State, move: Move)
    requires Fits(s)
  {
    match move
    case Step(step) => P.Enabled(s.pipe, step) && Ready(s, step)
    case Tx(Take(g)) => T.Enabled(s.token, T.Take(g)) && MayTake(s, g)
    case Tx(Finish(g)) => T.Enabled(s.token, T.Finish(g)) && g == Caller(s) && s.pipe.caller.Returned?
    case Tx(CallerTakes) => T.Enabled(s.token, T.CallerTakes) && s.token.places[Caller(s)].Finished?
    case Tx(use) => T.Enabled(s.token, use)
  }

  function Do(s: State, move: Move): (r: State)
    requires Fits(s) && Enabled(s, move)
    ensures Fits(r) && |r.pipe.workers| == |s.pipe.workers|
  {
    match move
    case Step(step) =>
      var token := match step
        case CloseWork => T.Do(s.token, T.Finish(0))
        case Exit(i) => T.Do(s.token, T.Finish(i + 1))
        case _ => s.token;
      State(P.Do(s.pipe, step, ParseJob), token, s.pages,
            if step.HandOver? then s.read[step.worker := false] else s.read,
            s.dealt && !step.Receive? && !step.Return?)
    case Tx(use) =>
      State(s.pipe, T.Do(s.token, use), if use == T.Use(0) && s.pages > 0 then s.pages - 1 else s.pages,
            if use.Use? && 1 <= use.g <= |s.read| then s.read[use.g - 1 := true] else s.read,
            s.dealt || (use.Use? && use.g == Caller(s)))
  }

  // ----- runs -----

  predicate Possible(s: State, moves: seq<Move>)
    requires Fits(s)
    decreases |moves|
  {
    moves == [] || (Enabled(s, moves[0]) && Possible(Do(s, moves[0]), moves[1..]))
  }

  /** Where a run ends. */
  function End(s: State, moves: seq<Move>): (r: State)
    requires Fits(s) && Possible(s, moves)
    ensures Fits(r) && |r.pipe.workers| == |s.pipe.workers|
    decreases |moves|
  {
    if moves == [] then s else End(Do(s, moves[0]), moves[1..])
  }

  // ----- what every move keeps -----

  /** A goroutine has the transaction only where the program takes it, and has
      finished with it when it ends. */
  ghost predicate SetupLinked(s: State)
    requires Fits(s)
  {
    && (s.token.places[0].Finished? <==> s.pipe.setup.Finished?)
    && (T.Has(s.token.places[0]) == 1 ==> s.pipe.setup.Running?)
    && (s.token.places[0].Holding? ==> s.pages > 0)
    && (s.pipe.setup.Running? || s.pipe.setup.Offering? || s.pipe.setupFailed || s.pages == 0)
    && (s.pipe.setup.Running? || s.pipe.setup.Offering? ==> !s.pipe.setupFailed)
  }

  ghost predicate WorkerLinked(s: State, i: nat)
    requires Fits(s) && i < |s.pipe.workers|
  {
    && (s.token.places[i + 1].Finished? <==> s.pipe.workers[i].Done?)
    && (s.token.places[i + 1].Holding? ==> s.pipe.workers[i].Working? && !s.read[i])
    && (s.token.places[i + 1].GivingBack? ==> s.pipe.workers[i].Working? && s.read[i])
  }

  ghost predicate WorkersLinked(s: State)
    requires Fits(s)
  {
    forall i :: 0 <= i < |s.pipe.workers| ==> WorkerLinked(s, i)
  }

  ghost predicate CallerLinked(s: State)
    requires Fits(s)
  {
    var place, caller := s.token.places[Caller(s)], s.pipe.caller;
    && (place.Finished? ==> caller.Returned?)
    && (place.Holding? ==> (caller.Returned? || caller.Calling?) && !s.dealt)
    && (place.GivingBack? ==> (caller.Returned? || caller.Calling?) && s.dealt)
    && (s.token.callerHolds || s.token.closed ==> place.Finished?)
    && (s.token.closed ==> s.token.callerHolds)
  }

  ghost predicate Linked(s: State)
  {
    Fits(s) && SetupLinked(s) && WorkersLinked(s) && CallerLinked(s)
  }

  ghost predicate Inv(s: State)
  {
    Linked(s) && P.Inv(s.pipe, ParseJob) && T.Inv(s.token) && (s.token.panicked ==> s.pipe.resultFailed)
  }

  lemma InitInv(s: State, items: seq<string>, n: nat)
    requires Init(s, items, n)
    ensures Inv(s)
  {
    hide P.Inv;
    P.InitInv(s.pipe, items, n, ParseJob);
    T.NoneHolds(s.token.places);
  }

  lemma MoveKeepsSetup(s: State, move: Move)
    requires Fits(s) && SetupLinked(s) && Enabled(s, move)
    ensures SetupLinked(Do(s, move))
  {
    hide SetupLinked, Enabled, Do;
    if move.Tx? {
      UseKeepsSetup(s, move.use);
    } else if P.OfSetup(move.step) {
      SetupKeepsSetup(s, move.step);
    } else if P.OfWorkers(move.step) {
      WorkersKeepSetup(s, move.step);
    } else {
      CallerKeepsSetup(s, move.step);
    }
  }

  lemma UseKeepsSetup(s: State, use: T.Step)
    requires Fits(s) && SetupLinked(s) && Enabled(s, Tx(use))
    ensures SetupLinked(Do(s, Tx(use)))
  {
  }

  lemma SetupKeepsSetup(s: State, step: P.Step)
    requires Fits(s) && SetupLinked(s) && Enabled(s, Step(step)) && P.OfSetup(step)
    ensures SetupLinked(Do(s, Step(step)))
  {
  }

  lemma WorkersKeepSetup(s: State, step: P.Step)
    requires Fits(s) && SetupLinked(s) && Enabled(s, Step(step)) && P.OfWorkers(step)
    ensures SetupLinked(Do(s, Step(step)))
  {
  }

  lemma CallerKeepsSetup(s: State, step: P.Step)
    requires Fits(s) && SetupLinked(s) && Enabled(s, Step(step)) && !P.OfSetup(step) && !P.OfWorkers(step)
    ensures SetupLinked(Do(s, Step(step)))
  {
  }

  lemma MoveKeepsWorker(s: State, move: Move, i: nat)
    requires Fits(s) && i < |s.pipe.workers| && WorkerLinked(s, i) && Enabled(s, move)
    ensures WorkerLinked(Do(s, move), i)
  {
    hide WorkerLinked, Enabled, Do;
    if move.Tx? {
      UseKeepsWorker(s, move.use, i);
    } else if P.OfSetup(move.step) {
      SetupKeepsWorker(s, move.step, i);
    } else if P.OfWorkers(move.step) {
      WorkersKeepWorker(s, move.step, i);
    } else {
      CallerKeepsWorker(s, move.step, i);
    }
  }

  lemma UseKeepsWorker(s: State, use: T.Step, i: nat)
    requires Fits(s) && i < |s.pipe.workers| && WorkerLinked(s, i) && Enabled(s, Tx(use))
    ensures WorkerLinked(Do(s, Tx(use)), i)
  {
  }

  lemma SetupKeepsWorker(s: State, step: P.Step, i: nat)
    requires Fits(s) && i < |s.pipe.workers| && WorkerLinked(s, i) && Enabled(s, Step(step)) && P.OfSetup(step)
    ensures WorkerLinked(Do(s, Step(step)), i)
  {
  }

  lemma WorkersKeepWorker(s: State, step: P.Step, i: nat)
    requires Fits(s) && i < |s.pipe.workers| && WorkerLinked(s, i) && Enabled(s, Step(step)) && P.OfWorkers(step)
    ensures WorkerLinked(Do(s, Step(step)), i)
  {
  }

  lemma CallerKeepsWorker(s: State, step: P.Step, i: nat)
    requires Fits(s) && i < |s.pipe.workers| && WorkerLinked(s, i) && Enabled(s, Step(step)) && !P.OfSetup(step)
    requires !P.OfWorkers(step)
    ensures WorkerLinked(Do(s, Step(step)), i)
  {
  }

  lemma MoveKeepsCaller(s: State, move: Move)
    requires Fits(s) && CallerLinked(s) && Enabled(s, move)
    ensures CallerLinked(Do(s, move))
  {
    hide CallerLinked, Enabled, Do;
    if move.Tx? {
      UseKeepsCaller(s, move.use);
    } else if P.OfSetup(move.step) {
      SetupKeepsCaller(s, move.step);
    } else if P.OfWorkers(move.step) {
      WorkersKeepCaller(s, move.step);
    } else {
      CallerKeepsCaller(s, move.step);
    }
  }

  lemma UseKeepsCaller(s: State, use: T.Step)
    requires Fits(s) && CallerLinked(s) && Enabled(s, Tx(use))
    ensures CallerLinked(Do(s, Tx(use)))
  {
  }

  lemma SetupKeepsCaller(s: State, step: P.Step)
    requires Fits(s) && CallerLinked(s) && Enabled(s, Step(step)) && P.OfSetup(step)
    ensures CallerLinked(Do(s, Step(step)))
  {
  }

  lemma WorkersKeepCaller(s: State, step: P.Step)
    requires Fits(s) && CallerLinked(s) && Enabled(s, Step(step)) && P.OfWorkers(step)
    ensures CallerLinked(Do(s, Step(step)))
  {
  }

  lemma CallerKeepsCaller(s: State, step: P.Step)
    requires Fits(s) && CallerLinked(s) && Enabled(s, Step(step)) && !P.OfSetup(step) && !P.OfWorkers(step)
    ensures CallerLinked(Do(s, Step(step)))
  {
  }

  lemma MoveKeepsLinked(s: State, move: Move)
    requires Linked(s) && Enabled(s, move)
    ensures Linked(Do(s, move))
  {
    hide SetupLinked, WorkerLinked, CallerLinked, Enabled, Do;
    var s' := Do(s, move);
    MoveKeepsSetup(s, move);
    MoveKeepsCaller(s, move);
    forall i | 0 <= i < |s'.pipe.workers| ensures WorkerLinked(s', i) {
      MoveKeepsWorker(s, move, i);
    }
  }

  /** Each move is a step of the pipeline, of the token, or of both. */
  lemma MoveIsSteps(s: State, move: Move)
    requires Fits(s) && Enabled(s, move)
    ensures match move
            case Step(step) => P.Enabled(s.pipe, step) && Do(s, move).pipe == P.Do(s.pipe, step, ParseJob)
            case Tx(use) => Do(s, move).pipe == s.pipe
    ensures match move
            case Step(CloseWork) => T.Enabled(s.token, T.Finish(0)) && Do(s, move).token == T.Do(s.token, T.Finish(0))
            case Step(Exit(i)) =>
              T.Enabled(s.token, T.Finish(i + 1)) && Do(s, move).token == T.Do(s.token, T.Finish(i + 1))
            case Step(_) => Do(s, move).token == s.token
            case Tx(use) => T.Enabled(s.token, use) && Do(s, move).token == T.Do(s.token, use)
  {
    hide T.Do, P.Do;
  }

  lemma MoveKeepsBoth(s: State, move: Move)
    requires Fits(s) && P.Inv(s.pipe, ParseJob) && T.Inv(s.token) && Enabled(s, move)
    ensures P.Inv(Do(s, move).pipe, ParseJob) && T.Inv(Do(s, move).token)
  {
    hide *;
    MoveIsSteps(s, move);
    match move {
      case Step(CloseWork) =>
        P.StepKeepsInv(s.pipe, P.CloseWork, ParseJob);
        T.StepKeepsInv(s.token, T.Finish(0));
      case Step(Exit(i)) =>
        P.StepKeepsInv(s.pipe, P.Exit(i), ParseJob);
        T.StepKeepsInv(s.token, T.Finish(i + 1));
      case Step(step) => P.StepKeepsInv(s.pipe, step, ParseJob);
      case Tx(use) => T.StepKeepsInv(s.token, use);
    }
  }

  /** Once the channel is closed without a failed result, nobody can use it. */
  lemma AllFinished(s: State)
    requires Inv(s) && s.token.closed && !s.pipe.resultFailed
    ensures forall g :: 0 <= g < |s.token.places| ==> s.token.places[g].Finished?
  {
    hide P.Conserved, P.OwnResults, T.Inv, P.Outcome;
    P.OutcomeHolds(s.pipe, ParseJob);
    ReturnedIsDone(s.pipe);
    forall g | 0 <= g < |s.token.places| ensures s.token.places[g].Finished? {
      if 0 < g <= |s.pipe.workers| {
        assert WorkerLinked(s, g - 1);
      }
    }
  }

  lemma ReturnedIsDone(pipe: Pipe)
    requires P.Inv(pipe, ParseJob) && pipe.caller.Returned? && !pipe.resultFailed
    ensures pipe.setup.Finished? && forall i :: 0 <= i < |pipe.workers| ==> pipe.workers[i].Done?
  {
    hide P.Conserved, P.OwnResults;
    assert pipe.workers[0].Done?;
  }

  lemma OpenIsCalm(token: T.State, use: T.Step)
    requires T.Inv(token) && !token.closed && T.Enabled(token, use)
    ensures !T.Do(token, use).panicked
  {
    hide T.Holders;
  }

  lemma MoveKeepsCalm(s: State, move: Move)
    requires Inv(s) && Enabled(s, move) && !Do(s, move).pipe.resultFailed
    ensures !Do(s, move).token.panicked
  {
    hide P.Inv, Linked, P.Do, P.Enabled, T.Inv, T.Do, Do, Enabled;
    InvFits(s);
    MoveIsSteps(s, move);
    FailedStays(s, move);
    if s.token.closed {
      AllFinished(s);
      FinishedCannot(s.token);
    }
    match move {
      case Step(CloseWork) => OpenIsCalm(s.token, T.Finish(0));
      case Step(Exit(i)) => OpenIsCalm(s.token, T.Finish(i + 1));
      case Step(_) =>
      case Tx(use) => OpenIsCalm(s.token, use);
    }
  }

  lemma FinishedCannot(token: T.State)
    requires token.closed && forall g :: 0 <= g < |token.places| ==> token.places[g].Finished?
    ensures forall use :: !T.Enabled(token, use)
  {
  }

  lemma FailedStays(s: State, move: Move)
    requires Fits(s) && Enabled(s, move)
    ensures s.pipe.resultFailed ==> Do(s, move).pipe.resultFailed
  {
    hide Do, Enabled;
    MoveIsSteps(s, move);
  }

  lemma MoveKeepsInv(s: State, move: Move)
    requires Inv(s) && Enabled(s, move)
    ensures Inv(Do(s, move))
  {
    hide Linked, P.Inv, T.Inv, Enabled, Do;
    InvFits(s);
    MoveKeepsLinked(s, move);
    MoveKeepsBoth(s, move);
    if !Do(s, move).pipe.resultFailed {
      MoveKeepsCalm(s, move);
    }
  }

  /** In every run the pipeline and the token keep their invariants together, and
      nothing goes wrong with the transaction unless a result has failed. */
  lemma {:induction false} RunKeepsInv(s: State, moves: seq<Move>)
    requires Inv(s) && Possible(s, moves)
    ensures Inv(End(s, moves))
    decreases |moves|
  {
    hide Inv, Enabled, Do;
    InvFits(s);
    if moves != [] {
      MoveKeepsInv(s, moves[0]);
      RunKeepsInv(Do(s, moves[0]), moves[1..]);
    }
  }

  lemma InvFits(s: State)
    requires Inv(s)
    ensures Fits(s) && |s.token.places| == |s.pipe.workers| + 2
  {
    hide P.Inv, T.Inv;
  }

  lemma NoPanic(s: State, moves: seq<Move>, items: seq<string>, n: nat)
    requires Init(s, items, n) && Possible(s, moves)
    ensures End(s, moves).token.panicked ==> End(s, moves).pipe.resultFailed
  {
    hide *;
    InitInv(s, items, n);
    InitSize(s, items, n);
    RunKeepsInv(s, moves);
    InvCalm(End(s, moves));
  }

  lemma InvCalm(s: State)
    requires Inv(s)
    ensures s.token.panicked ==> s.pipe.resultFailed
  {
  }

  /** While the channel is open, two goroutines that have the transaction are the
      same; so what they do with it comes one after another. */
  lemma OneAtATime(s: State, moves: seq<Move>, items: seq<string>, n: nat, f: nat, g: nat)
    requires Init(s, items, n) && Possible(s, moves) && f < n + 2 && g < n + 2
    requires var t := End(s, moves).token; !t.closed && T.Has(t.places[f]) == 1 && T.Has(t.places[g]) == 1
    ensures f == g && !End(s, moves).token.callerHolds
  {
    hide *;
    InitInv(s, items, n);
    InitSize(s, items, n);
    RunKeepsInv(s, moves);
    InvParts(End(s, moves));
    InvFits(End(s, moves));
    T.OneHolder(End(s, moves).token, f, g);
  }

  lemma InitSize(s: State, items: seq<string>, n: nat)
    requires Init(s, items, n)
    ensures Fits(s) && |s.pipe.workers| == n
  {
  }

  // ----- progress -----

  /** Whoever has the transaction can go on. */
  lemma HolderMoves(s: State, g: nat)
    requires Inv(s) && !s.token.closed && g < |s.token.places| && T.Has(s.token.places[g]) == 1
    ensures exists move :: Enabled(s, move)
  {
    hide P.Inv, Linked, T.Inv, P.Enabled;
    InvFits(s);
    if s.token.places[g].Holding? {
      assert Enabled(s, Tx(T.Use(g)));
    } else {
      T.OneHolder(s.token, g, g);
      assert Enabled(s, Tx(T.GiveBack(g)));
    }
  }

  /** While nobody has it, a step of the pipeline is possible, or the lookup that
      it waits for. */
  lemma PipeMoves(s: State, step: P.Step)
    requires Inv(s) && !s.token.closed && s.token.tokens > 0 && P.Enabled(s.pipe, step) && !s.pipe.caller.Returned?
    requires forall g :: 0 <= g < |s.token.places| ==> T.Has(s.token.places[g]) == 0
    ensures exists move :: Enabled(s, move)
  {
    hide P.Inv, T.Inv;
    match step {
      case Work(i) =>
        assert WorkerLinked(s, i);
        if s.read[i] {
          assert Enabled(s, Step(step));
        } else {
          assert Enabled(s, Tx(T.Take(i + 1)));
        }
      case Exit(i) =>
        assert WorkerLinked(s, i);
        assert Enabled(s, Step(step));
      case SetupReturns(failed) =>
        if failed || s.pages == 0 {
          assert Enabled(s, Step(step));
        } else {
          assert Enabled(s, Tx(T.Take(0)));
        }
      case _ => assert Enabled(s, Step(step));
    }
  }

  /** The caller takes the token when it is back and has finished. */
  lemma CallerMoves(s: State)
    requires Inv(s) && !s.token.closed && s.pipe.caller.Returned?
    requires s.token.callerHolds || (s.token.tokens > 0 && T.Has(s.token.places[Caller(s)]) == 0)
    ensures exists move :: Enabled(s, move)
  {
    hide P.Inv, T.Inv, P.Enabled;
    if s.token.callerHolds {
      assert Enabled(s, Tx(T.CallerCloses));
    } else if s.token.places[Caller(s)].Finished? {
      assert Enabled(s, Tx(T.CallerTakes));
    } else {
      assert Enabled(s, Tx(T.Finish(Caller(s))));
    }
  }

  lemma TokenFree(token: T.State)
    requires T.Inv(token) && !token.closed && forall g :: 0 <= g < |token.places| ==> T.Has(token.places[g]) == 0
    ensures token.callerHolds || token.tokens > 0
  {
    T.NoneHolds(token.places);
  }

  lemma CallerLast(s: State)
    requires Inv(s) && s.token.callerHolds
    ensures s.pipe.caller.Returned?
  {
    hide P.Inv, T.Inv;
  }

  /** When the pipeline is back without an error, all pages of roots have been read. */
  lemma PagesRead(s: State)
    requires Inv(s) && s.pipe.caller.Returned? && !s.pipe.caller.failed
    ensures s.pages == 0
  {
    hide T.Inv, P.Conserved, P.OwnResults, WorkersLinked, CallerLinked;
  }

  /** Sharing the transaction never locks the pipeline up: until the channel is
      closed, some goroutine can move. */
  lemma NeverStuck(s: State)
    requires Inv(s) && !s.token.closed
    ensures exists move :: Enabled(s, move)
  {
    hide Inv, Enabled, Caller, T.Has;
    InvFits(s);
    InvParts(s);
    if g :| 0 <= g < |s.token.places| && T.Has(s.token.places[g]) != 0 {
      HasIsOne(s.token.places[g]);
      HolderMoves(s, g);
    } else {
      TokenFree(s.token);
      if s.token.callerHolds {
        CallerLast(s);
      }
      if s.pipe.caller.Returned? {
        CallerIs(s);
        CallerMoves(s);
      } else {
        P.NeverStuck(s.pipe, ParseJob);
        var step :| P.Enabled(s.pipe, step);
        PipeMoves(s, step);
      }
    }
  }

  lemma HasIsOne(p: T.Place)
    ensures T.Has(p) == 0 || T.Has(p) == 1
  {
  }

  lemma InvParts(s: State)
    requires Inv(s)
    ensures T.Inv(s.token) && P.Inv(s.pipe, ParseJob)
  {
    hide T.Inv, P.Inv, Linked;
  }

  lemma CallerIs(s: State)
    requires Fits(s)
    ensures Caller(s) < |s.token.places|
  {
  }

  // ----- every run ends -----

  /** What a goroutine can do with the token, at most, when it is to use it so often. */
  function Cost(place: T.Place, uses: nat): nat
  {
    match place
    case Outside => 3 * uses + 1
    case Holding(_) => 3 * uses
    case GivingBack => 3 * uses + 2
    case Finished => 0
  }

  /** How often each goroutine may still use the transaction before the pipeline's next step. */
  function UsesOf(s: State, g: nat): nat
    requires Fits(s) && g < |s.token.places|
  {
    if g == 0 then s.pages
    else if g <= |s.pipe.workers| then (if s.pipe.workers[g - 1].Working? && !s.read[g - 1] then 1 else 0)
    else if (s.pipe.caller.Returned? || s.pipe.caller.Calling?) && !s.dealt then 1 else 0
  }

  function CostOf(s: State, g: nat): nat
    requires Fits(s) && g < |s.token.places|
  {
    Cost(s.token.places[g], UsesOf(s, g))
  }

  function Costs(s: State): (r: seq<nat>)
    requires Fits(s)
    ensures |r| == |s.token.places| && forall g :: 0 <= g < |r| ==> r[g] == CostOf(s, g)
  {
    seq(|s.token.places|, g requires 0 <= g < |s.token.places| && Fits(s) => CostOf(s, g))
  }

  function Total(ns: seq<nat>): nat
  {
    if ns == [] then 0 else Total(ns[..|ns| - 1]) + ns[|ns| - 1]
  }

  lemma {:induction false} TotalUpdate(ns: seq<nat>, i: nat, n: nat)
    requires i < |ns|
    ensures Total(ns[i := n]) + ns[i] == Total(ns) + n
    decreases |ns|
  {
    var k := |ns| - 1;
    if i == k {
      assert ns[i := n][..k] == ns[..k];
    } else {
      assert ns[i := n][..k] == ns[..k][i := n];
      TotalUpdate(ns[..k], i, n);
    }
  }

  /** How much is left to do, at most: each step of the pipeline allows one use more. */
  function Left(s: State): nat
    requires Fits(s)
  {
    4 * P.Left(s.pipe) + Total(Costs(s)) + (if s.token.callerHolds then 0 else 1) + (if s.token.closed then 0 else 1)
  }

  /** The goroutine whose uses a move can change; the caller, for moves that change none. */
  function Actor(s: State, move: Move): nat
    requires Fits(s)
  {
    match move
    case Step(HandOver(i)) => i + 1
    case Step(Work(i)) => i + 1
    case Step(Send(i)) => i + 1
    case Step(Exit(i)) => i + 1
    case Step(CloseWork) => 0
    case Tx(Take(g)) => g
    case Tx(Use(g)) => g
    case Tx(GiveBack(g)) => g
    case _ => Caller(s)
  }

  /** A move changes what its own goroutine may still do, and no other's. */
  ghost predicate OnlyActor(s: State, move: Move)
    requires Fits(s) && Enabled(s, move)
  {
    && Actor(s, move) < |s.token.places|
    && forall g :: 0 <= g < |s.token.places| && g != Actor(s, move) ==> CostOf(Do(s, move), g) == CostOf(s, g)
  }

  lemma UseIsActors(s: State, use: T.Step)
    requires Fits(s) && Enabled(s, Tx(use))
    ensures OnlyActor(s, Tx(use))
  {
    hide P.Do, P.Enabled;
  }

  lemma SetupIsActor(s: State, step: P.Step)
    requires Fits(s) && Enabled(s, Step(step)) && P.OfSetup(step)
    ensures OnlyActor(s, Step(step))
  {
  }

  lemma WorkerIsActor(s: State, step: P.Step)
    requires Fits(s) && Enabled(s, Step(step)) && P.OfWorkers(step)
    ensures OnlyActor(s, Step(step))
  {
  }

  lemma CallerIsActor(s: State, step: P.Step)
    requires Fits(s) && Enabled(s, Step(step)) && !P.OfSetup(step) && !P.OfWorkers(step)
    ensures OnlyActor(s, Step(step))
  {
  }

  lemma MoveIsActors(s: State, move: Move)
    requires Fits(s) && Enabled(s, move)
    ensures OnlyActor(s, move)
  {
    hide OnlyActor, Enabled, Do;
    if move.Tx? {
      UseIsActors(s, move.use);
    } else if P.OfSetup(move.step) {
      SetupIsActor(s, move.step);
    } else if P.OfWorkers(move.step) {
      WorkerIsActor(s, move.step);
    } else {
      CallerIsActor(s, move.step);
    }
  }

  /** Using the token costs its goroutine something; a step of the pipeline gives
      it one more use at most. */
  lemma UseCosts(s: State, use: T.Step)
    requires Linked(s) && Enabled(s, Tx(use)) && Actor(s, Tx(use)) < |s.token.places|
    ensures var t, g := Do(s, Tx(use)), Actor(s, Tx(use));
            if use.CallerTakes? || use.CallerCloses? then CostOf(t, g) == CostOf(s, g) else CostOf(t, g) < CostOf(s, g)
  {
    var g := Actor(s, Tx(use));
    if 0 < g <= |s.pipe.workers| {
      assert WorkerLinked(s, g - 1);
    }
    hide P.Do, P.Enabled;
  }

  lemma StepCosts(s: State, step: P.Step)
    requires Linked(s) && Enabled(s, Step(step)) && Actor(s, Step(step)) < |s.token.places|
    ensures CostOf(Do(s, Step(step)), Actor(s, Step(step))) <= CostOf(s, Actor(s, Step(step))) + 3
  {
    hide Do, Enabled, CostOf, Linked;
    if P.OfSetup(step) {
      SetupCosts(s, step);
    } else if P.OfWorkers(step) {
      WorkerCosts(s, step);
    } else {
      CallerCosts(s, step);
    }
  }

  lemma SetupCosts(s: State, step: P.Step)
    requires Linked(s) && Enabled(s, Step(step)) && Actor(s, Step(step)) < |s.token.places| && P.OfSetup(step)
    ensures CostOf(Do(s, Step(step)), Actor(s, Step(step))) <= CostOf(s, Actor(s, Step(step))) + 3
  {
    hide SetupLinked, WorkersLinked, CallerLinked;
  }

  lemma WorkerCosts(s: State, step: P.Step)
    requires Linked(s) && Enabled(s, Step(step)) && Actor(s, Step(step)) < |s.token.places| && P.OfWorkers(step)
    ensures CostOf(Do(s, Step(step)), Actor(s, Step(step))) <= CostOf(s, Actor(s, Step(step))) + 3
  {
    hide SetupLinked, WorkersLinked, CallerLinked;
  }

  lemma CallerCosts(s: State, step: P.Step)
    requires Linked(s) && Enabled(s, Step(step)) && Actor(s, Step(step)) < |s.token.places| && !P.OfSetup(step)
    requires !P.OfWorkers(step)
    ensures CostOf(Do(s, Step(step)), Actor(s, Step(step))) <= CostOf(s, Actor(s, Step(step))) + 3
  {
    hide SetupLinked, WorkersLinked, CallerLinked;
  }

  lemma TotalAfter(s: State, move: Move)
    requires Fits(s) && Enabled(s, move) && OnlyActor(s, move)
    ensures Total(Costs(Do(s, move))) + CostOf(s, Actor(s, move)) ==
              Total(Costs(s)) + CostOf(Do(s, move), Actor(s, move))
  {
    hide Enabled, Do, CostOf, Actor, Total, Costs;
    var g, t := Actor(s, move), Do(s, move);
    TotalUpdate(Costs(s), g, CostOf(t, g));
    assert Costs(t) == Costs(s)[g := CostOf(t, g)];
  }

  /** Every move uses up something of what is left to do. */
  lemma MovesUseUp(s: State, move: Move)
    requires Linked(s) && Enabled(s, move)
    ensures Left(Do(s, move)) < Left(s)
  {
    hide Enabled, Do, CostOf, Actor, Total, Costs, SetupLinked, WorkersLinked, CallerLinked, P.Left, P.Do;
    MoveIsSteps(s, move);
    MoveIsActors(s, move);
    TotalAfter(s, move);
    match move {
      case Step(step) =>
        P.StepsUseUp(s.pipe, step, ParseJob);
        StepCosts(s, step);
      case Tx(use) => UseCosts(s, use);
    }
  }

  lemma {:induction false} MovesCounted(s: State, moves: seq<Move>)
    requires Inv(s) && Possible(s, moves)
    ensures |moves| + Left(End(s, moves)) <= Left(s)
    decreases |moves|
  {
    hide Inv, Enabled, Do, Left;
    InvFits(s);
    if moves != [] {
      InvLinked(s);
      MovesUseUp(s, moves[0]);
      MoveKeepsInv(s, moves[0]);
      MovesCounted(Do(s, moves[0]), moves[1..]);
    }
  }

  lemma InvLinked(s: State)
    requires Inv(s)
    ensures Linked(s)
  {
    hide P.Inv, T.Inv, Linked;
  }

  /** Every run is at most so long, and one that cannot go on has come to the close
      of the channel, with the pipeline back. */
  lemma RunsEnd(s: State, moves: seq<Move>, items: seq<string>, n: nat)
    requires Init(s, items, n) && Possible(s, moves)
    ensures |moves| <= Left(s)
    ensures (forall move :: !Enabled(End(s, moves), move)) ==>
              End(s, moves).token.closed && End(s, moves).pipe.caller.Returned?
  {
    hide *;
    InitInv(s, items, n);
    InitSize(s, items, n);
    MovesCounted(s, moves);
    RunKeepsInv(s, moves);
    var t := End(s, moves);
    if forall move :: !Enabled(t, move) {
      if !t.token.closed {
        NeverStuck(t);
      }
      ClosedIsBack(t);
    }
  }

  lemma ClosedIsBack(s: State)
    requires Inv(s) && s.token.closed
    ensures s.pipe.caller.Returned?
  {
    hide P.Inv, T.Inv;
  }

  // ----- after a failed result -----

  /** A worker has yet to look its object up. */
  predicate LookupLeft(s: State)
    requires Fits(s)
  {
    exists i :: 0 <= i < |s.pipe.workers| && s.pipe.workers[i].Working? && !s.read[i]
  }

  /** The caller is back, the channel closed, and no lookup left. */
  ghost predicate Quiet(s: State)
  {
    && Fits(s) && s.token.closed && !s.token.panicked && s.pipe.caller.Returned?
    && !s.pipe.setup.Running? && !s.pipe.setup.Offering?
    && (forall g :: 0 <= g < |s.token.places| ==> s.token.places[g].Outside? || s.token.places[g].Finished?)
    && s.token.places[Caller(s)].Finished? && !LookupLeft(s)
  }

  lemma UseStaysQuiet(s: State, use: T.Step)
    requires Quiet(s)
    ensures !Enabled(s, Tx(use))
  {
  }

  lemma StepStaysQuiet(s: State, step: P.Step)
    requires Quiet(s) && Enabled(s, Step(step))
    ensures Quiet(Do(s, Step(step)))
  {
  }

  lemma {:induction false} QuietRun(s: State, moves: seq<Move>)
    requires Quiet(s) && Possible(s, moves)
    ensures !End(s, moves).token.panicked
    decreases |moves|
  {
    hide Enabled, Do;
    if moves != [] {
      match moves[0] {
        case Tx(use) => UseStaysQuiet(s, use);
        case Step(step) => StepStaysQuiet(s, step);
      }
      QuietRun(Do(s, moves[0]), moves[1..]);
    }
  }

  /** A run leads from one state to the other. */
  ghost predicate Leads(s: State, t: State)
    requires Fits(s)
  {
    exists moves :: Possible(s, moves) && End(s, moves) == t
  }

  lemma NoneHasIt(token: T.State)
    requires T.Inv(token) && T.Enabled(token, T.CallerCloses)
    ensures !token.panicked && token.tokens == 0
    ensures forall g :: 0 <= g < |token.places| ==> token.places[g].Outside? || token.places[g].Finished?
  {
    hide T.Holders;
    T.TokenCount(token);
    forall g | 0 <= g < |token.places| ensures token.places[g].Outside? || token.places[g].Finished? {
      T.HoldersAtLeast(token.places, g);
    }
  }

  lemma SetupIsOver(pipe: Pipe)
    requires P.Inv(pipe, ParseJob) && pipe.caller.Returned?
    ensures !pipe.setup.Running? && !pipe.setup.Offering?
  {
    hide P.Conserved, P.OwnResults;
  }

  lemma ClosesQuiet(s: State)
    requires Inv(s) && Enabled(s, Tx(T.CallerCloses)) && !LookupLeft(s)
    ensures Quiet(Do(s, Tx(T.CallerCloses)))
  {
    hide P.Inv, T.Inv, P.Enabled, P.Do;
    NoneHasIt(s.token);
    SetupIsOver(s.pipe);
  }

  lemma {:induction false} RunOn(s: State, moves: seq<Move>, move: Move)
    requires Fits(s) && Possible(s, moves) && Enabled(End(s, moves), move)
    ensures Possible(s, moves + [move]) && End(s, moves + [move]) == Do(End(s, moves), move)
    decreases |moves|
  {
    hide Enabled, Do;
    if moves == [] {
      assert [] + [move] == [move] && [move][1..] == [];
    } else {
      RunOn(Do(s, moves[0]), moves[1..], move);
      assert (moves + [move])[0] == moves[0] && (moves + [move])[1..] == moves[1..] + [move];
    }
  }

  lemma LeadsOn(s: State, t: State, move: Move)
    requires Fits(s) && Fits(t) && Leads(s, t) && Enabled(t, move)
    ensures Leads(s, Do(t, move))
  {
    hide Enabled, Do, Possible, End;
    var moves :| Possible(s, moves) && End(s, moves) == t;
    RunOn(s, moves, move);
  }

  lemma LeadsNowhere(s: State)
    requires Fits(s)
    ensures Leads(s, s)
  {
    assert Possible(s, []) && End(s, []) == s;
  }

  lemma {:induction false} LeadsFurther(s: State, t: State, moves: seq<Move>)
    requires Fits(s) && Fits(t) && Leads(s, t) && Possible(t, moves)
    ensures Leads(s, End(t, moves))
    decreases |moves|
  {
    hide Enabled, Do, Leads;
    if moves != [] {
      LeadsOn(s, t, moves[0]);
      LeadsFurther(s, Do(t, moves[0]), moves[1..]);
    }
  }

  lemma LeadsThrough(s: State, t: State, u: State)
    requires Fits(s) && Fits(t) && Leads(s, t) && Leads(t, u)
    ensures Leads(s, u)
  {
    hide Enabled, Do, Possible, End;
    var moves :| Possible(t, moves) && End(t, moves) == u;
    LeadsFurther(s, t, moves);
  }

  lemma LeadsKeepsInv(s: State, t: State)
    requires Inv(s) && Leads(s, t)
    ensures Inv(t)
  {
    hide Enabled, Do, Possible, End, Inv;
    InvFits(s);
    var moves :| Possible(s, moves) && End(s, moves) == t;
    RunKeepsInv(s, moves);
  }

  lemma LookupPanics(s: State, i: nat)
    requires Inv(s) && Enabled(s, Tx(T.CallerCloses))
    requires i < |s.pipe.workers| && s.pipe.workers[i].Working? && !s.read[i]
    ensures exists t :: Leads(Do(s, Tx(T.CallerCloses)), t) && t.token.panicked
  {
    hide P.Inv, T.Inv, P.Enabled, P.Do, Leads;
    NoneHasIt(s.token);
    assert WorkerLinked(s, i);
    var t := Do(s, Tx(T.CallerCloses));
    LeadsNowhere(t);
    LeadsOn(t, t, Tx(T.Take(i + 1)));
    var u := Do(t, Tx(T.Take(i + 1)));
    LeadsOn(t, u, Tx(T.Use(i + 1)));
  }

  /** When the caller closes the channel, a goroutine can come to use the nil that
      the closed channel gives if and only if some worker has yet to look its
      object up. */
  lemma LateLookup(s: State)
    requires Inv(s) && Enabled(s, Tx(T.CallerCloses))
    ensures (exists t :: Leads(Do(s, Tx(T.CallerCloses)), t) && t.token.panicked) <==> LookupLeft(s)
  {
    hide P.Inv, T.Inv, Possible, End, Enabled, Do;
    var closed := Do(s, Tx(T.CallerCloses));
    if LookupLeft(s) {
      var i :| 0 <= i < |s.pipe.workers| && s.pipe.workers[i].Working? && !s.read[i];
      LookupPanics(s, i);
    } else {
      ClosesQuiet(s);
      forall t | Leads(closed, t) ensures !t.token.panicked {
        var moves :| Possible(closed, moves) && End(closed, moves) == t;
        QuietRun(closed, moves);
      }
    }
  }

  lemma BackIsFree(s: State)
    requires Inv(s) && Enabled(s, Step(P.Return)) && s.token.tokens == 1
    ensures var t := Do(s, Step(P.Return));
            && Inv(t) && t.pipe.caller.Returned? && !t.dealt && t.token.places[Caller(t)].Outside?
            && t.token.tokens == 1 && !t.token.callerHolds && !t.token.closed
  {
    hide Inv, P.Do, T.Do;
    InvFits(s);
    CallerOutside(s);
    MoveKeepsInv(s, Step(P.Return));
    ReturnIs(s.pipe);
  }

  lemma ReturnIs(pipe: Pipe)
    requires P.Enabled(pipe, P.Return)
    ensures P.Do(pipe, P.Return, ParseJob).caller.Returned?
    ensures P.Do(pipe, P.Return, ParseJob).workers == pipe.workers
  {
  }

  lemma CallerOutside(s: State)
    requires Inv(s) && s.pipe.caller.Waiting?
    ensures Fits(s) && s.token.places[Caller(s)].Outside? && !s.token.callerHolds && !s.token.closed
  {
    hide P.Inv, T.Inv, SetupLinked, WorkersLinked;
  }

  /** When the pipeline comes back and the token lies in the channel, the caller can
      use the transaction for the last commit, give it back, take it again and close. */
  lemma CanCommitAndClose(s: State)
    requires Inv(s) && Enabled(s, Step(P.Return)) && s.token.tokens == 1
    ensures exists t ::
              && Leads(s, t) && t.pipe.caller.Returned? && t.dealt && t.token.callerHolds
              && Enabled(t, Tx(T.CallerCloses))
  {
    hide P.Inv, P.Enabled, P.Do, Leads, T.Inv, Linked;
    BackIsFree(s);
    InvFits(s);
    LeadsNowhere(s);
    LeadsOn(s, s, Step(P.Return));
    var s0 := Do(s, Step(P.Return));
    var g := Caller(s0);
    LeadsOn(s, s0, Tx(T.Take(g)));
    var s1 := Do(s0, Tx(T.Take(g)));
    LeadsOn(s, s1, Tx(T.Use(g)));
    var s2 := Do(s1, Tx(T.Use(g)));
    LeadsOn(s, s2, Tx(T.GiveBack(g)));
    var s3 := Do(s2, Tx(T.GiveBack(g)));
    LeadsOn(s, s3, Tx(T.Finish(g)));
    var s4 := Do(s3, Tx(T.Finish(g)));
    LeadsOn(s, s4, Tx(T.CallerTakes));
  }

  // ----- a run that comes to it -----

  /** Two workers and two roots. */
  function Beginning(): State
  {
    State(P.State(P.Running(["a", "b"]), [P.Idle, P.Idle], [], P.Looping, P.Unsent,
                  false, false, false, false, false, [], [], [], false, false),
          T.State([T.Outside, T.Outside, T.Outside, T.Outside], 1, false, false, false), 1, [false, false], false)
  }

  /** The setup has read the only page. */
  function PageRead(): State
  {
    Beginning().(pages := 0)
  }

  /** The first worker has looked its object up. */
  function Looked(): State
  {
    State(P.State(P.Running(["b"]), [P.Working("a"), P.Idle], [], P.Looping, P.Unsent,
                  false, false, false, false, false, ["a"], [], [], false, false),
          T.State([T.Outside, T.Outside, T.Outside, T.Outside], 1, false, false, false), 0, [true, false], false)
  }

  /** Its result is sent, and the second worker has just been given a root. */
  function Sent(): State
  {
    State(P.State(P.Running([]), [P.Idle, P.Working("b")], [P.Result("a", ())], P.Looping, P.Unsent,
                  false, false, false, false, false, ["a", "b"], [], [], false, false),
          T.State([T.Outside, T.Outside, T.Outside, T.Outside], 1, false, false, false), 0, [true, false], false)
  }

  /** The result has used the transaction and failed. */
  function Failed(): State
  {
    State(P.State(P.Running([]), [P.Idle, P.Working("b")], [], P.LoopDone(true), P.Unsent, false, false, false, false,
                  false, ["a", "b"], [], [P.Result("a", ())], false, true),
          T.State([T.Outside, T.Outside, T.Outside, T.Outside], 1, false, false, false), 0, [true, false], true)
  }

  /** The pipeline is back. */
  function Back(): State
  {
    State(P.State(P.Reported, [P.Idle, P.Working("b")], [], P.Returned(true), P.Taken, false, false, false, true, false,
                  ["a", "b"], [], [P.Result("a", ())], false, true),
          T.State([T.Outside, T.Outside, T.Outside, T.Outside], 1, false, false, false), 0, [true, false], false)
  }

  /** The caller is about to close the channel. */
  function AboutToClose(): State
  {
    Back().(token := T.State([T.Outside, T.Outside, T.Outside, T.Finished], 0, true, false, false))
  }

  lemma ReadsPage()
    ensures Leads(Beginning(), PageRead())
  {
    hide Leads;
    var s0 := Beginning();
    var s1 := Do(s0, Tx(T.Take(0)));
    var s2 := Do(s1, Tx(T.Use(0)));
    var s3 := Do(s2, Tx(T.GiveBack(0)));
    assert s3 == PageRead();
    LeadsNowhere(s0);
    LeadsOn(s0, s0, Tx(T.Take(0)));
    LeadsOn(s0, s1, Tx(T.Use(0)));
    LeadsOn(s0, s2, Tx(T.GiveBack(0)));
  }

  lemma LooksUp()
    ensures Leads(PageRead(), Looked())
  {
    hide Leads;
    var s0 := PageRead();
    var s1 := Do(s0, Step(P.Offer));
    var s2 := Do(s1, Step(P.HandOver(0)));
    var s3 := Do(s2, Tx(T.Take(1)));
    var s4 := Do(s3, Tx(T.Use(1)));
    var s5 := Do(s4, Tx(T.GiveBack(1)));
    assert s5 == Looked();
    LeadsNowhere(s0);
    LeadsOn(s0, s0, Step(P.Offer));
    LeadsOn(s0, s1, Step(P.HandOver(0)));
    LeadsOn(s0, s2, Tx(T.Take(1)));
    LeadsOn(s0, s3, Tx(T.Use(1)));
    LeadsOn(s0, s4, Tx(T.GiveBack(1)));
  }

  lemma Sends()
    ensures Leads(Looked(), Sent())
  {
    hide Leads;
    var s0 := Looked();
    var s1 := Do(s0, Step(P.Work(0)));
    var s2 := Do(s1, Step(P.Send(0)));
    var s3 := Do(s2, Step(P.Offer));
    var s4 := Do(s3, Step(P.HandOver(1)));
    assert s4.pipe.accepted == ["a", "b"];
    assert s4.pipe.workers == [P.Idle, P.Working("b")];
    assert s4.pipe.resultQ == [P.Result("a", ParseJob("a"))];
    assert s4.read == [true, false];
    assert s4.pipe.setup == P.Running([]);
    assert s4 == Sent();
    LeadsNowhere(s0);
    LeadsOn(s0, s0, Step(P.Work(0)));
    LeadsOn(s0, s1, Step(P.Send(0)));
    LeadsOn(s0, s2, Step(P.Offer));
    LeadsOn(s0, s3, Step(P.HandOver(1)));
  }

  lemma Fails()
    ensures Leads(Sent(), Failed())
  {
    hide Leads;
    var s0 := Sent();
    var s1 := Do(s0, Step(P.Receive));
    var s2 := Do(s1, Tx(T.Take(3)));
    var s3 := Do(s2, Tx(T.Use(3)));
    var s4 := Do(s3, Tx(T.GiveBack(3)));
    var s5 := Do(s4, Step(P.ResultReturns(true)));
    assert s5 == Failed();
    LeadsNowhere(s0);
    LeadsOn(s0, s0, Step(P.Receive));
    LeadsOn(s0, s1, Tx(T.Take(3)));
    LeadsOn(s0, s2, Tx(T.Use(3)));
    LeadsOn(s0, s3, Tx(T.GiveBack(3)));
    LeadsOn(s0, s4, Step(P.ResultReturns(true)));
  }

  lemma ComesBack()
    ensures Leads(Failed(), Back())
  {
    hide Leads;
    var s0 := Failed();
    var s1 := Do(s0, Step(P.CloseTerm));
    var s2 := Do(s1, Step(P.SetupReturns(false)));
    var s3 := Do(s2, Step(P.Return));
    assert s3 == Back();
    LeadsNowhere(s0);
    LeadsOn(s0, s0, Step(P.CloseTerm));
    LeadsOn(s0, s1, Step(P.SetupReturns(false)));
    LeadsOn(s0, s2, Step(P.Return));
  }

  lemma TakesLast()
    ensures Leads(Back(), AboutToClose())
  {
    hide Leads;
    var s0 := Back();
    var s1 := Do(s0, Tx(T.Finish(3)));
    var s2 := Do(s1, Tx(T.CallerTakes));
    assert s2 == AboutToClose();
    LeadsNowhere(s0);
    LeadsOn(s0, s0, Tx(T.Finish(3)));
    LeadsOn(s0, s1, Tx(T.CallerTakes));
  }

  lemma Begins()
    ensures Init(Beginning(), ["a", "b"], 2)
  {
  }

  lemma CanClose()
    ensures Fits(Beginning()) && Fits(PageRead()) && Fits(Looked()) && Fits(Sent()) && Fits(Failed()) && Fits(Back())
    ensures Enabled(AboutToClose(), Tx(T.CallerCloses)) && LookupLeft(AboutToClose())
    ensures AboutToClose().pipe.caller == P.Returned(true) && AboutToClose().pipe.workers[1] == P.Working("b")
  {
    assert !AboutToClose().read[1];
  }

  /** The program can come to such a close, and to the use of nil after it. */
  lemma FailedRunPanics()
    ensures Init(Beginning(), ["a", "b"], 2) && Leads(Beginning(), AboutToClose())
    ensures AboutToClose().pipe.caller == P.Returned(true) && AboutToClose().pipe.workers[1] == P.Working("b")
    ensures Enabled(AboutToClose(), Tx(T.CallerCloses))
    ensures exists t :: Leads(Do(AboutToClose(), Tx(T.CallerCloses)), t) && t.token.panicked
  {
    hide *;
    Begins();
    CanClose();
    ReadsPage();
    LooksUp();
    LeadsThrough(Beginning(), PageRead(), Looked());
    Sends();
    LeadsThrough(Beginning(), Looked(), Sent());
    Fails();
    LeadsThrough(Beginning(), Sent(), Failed());
    ComesBack();
    LeadsThrough(Beginning(), Failed(), Back());
    TakesLast();
    LeadsThrough(Beginning(), Back(), AboutToClose());
    InitInv(Beginning(), ["a", "b"], 2);
    LeadsKeepsInv(Beginning(), AboutToClose());
    LateLookup(AboutToClose());
  }
}
