/** Every run of the goroutines is a run of the indexer's actions: a worker's
    lookup is one parsing, and the result function's use of the transaction (or
    its return without one) deals with one result. All other moves change nothing
    that the indexer sees. */
module Replay {
  import opened Trees
  import opened Digests
  import opened Merkle
  import opened Handoff
  import opened Objects
  import opened Indexer
  import opened Paging
  import opened Ordering
  import opened Sweep
  import Runs

  datatype Action = Lookup(path: string) | Deal(path: string) | Nothing

  function ActionOf(s: State, move: Move): Action
    requires Fits(s) && Enabled(s, move)
  {
    match move
    case Tx(Use(g)) =>
      if 1 <= g <= |s.pipe.workers| && s.pipe.workers[g - 1].Working? then Lookup(s.pipe.workers[g - 1].input)
      else if g == Caller(s) && s.pipe.caller.Calling? then Deal(s.pipe.caller.result.input)
      else Nothing
    case Step(ResultReturns(_)) => if s.dealt then Nothing else Deal(s.pipe.caller.result.input)
    case _ => Nothing
  }

  // ----- what the indexer sees of a state -----

  function Sum(ms: seq<multiset<string>>): multiset<string>
  {
    if ms == [] then multiset{} else Sum(ms[..|ms| - 1]) + ms[|ms| - 1]
  }

  lemma {:induction false} SumUpdate(ms: seq<multiset<string>>, i: nat, m: multiset<string>)
    requires i < |ms|
    ensures Sum(ms[i := m]) + ms[i] == Sum(ms) + m
    decreases |ms|
  {
    var n := |ms| - 1;
    if i == n {
      assert ms[i := m][..n] == ms[..n];
    } else {
      assert ms[i := m][..n] == ms[..n][i := m];
      SumUpdate(ms[..n], i, m);
      P.Exchange(Sum(ms[..n][i := m]), Sum(ms[..n]), ms[n], ms[i], m);
    }
  }

  /** A root given to a worker that has not looked it up. */
  function Unread(w: P.Worker<string, ()>, read: bool): multiset<string>
  {
    if w.Working? && !read then multiset{w.input} else multiset{}
  }

  /** A root whose worker has. */
  function Read(w: P.Worker<string, ()>, read: bool): multiset<string>
  {
    if w.Holding? then multiset{w.result.input} else if w.Working? && read then multiset{w.input} else multiset{}
  }

  function UnreadOf(s: State): (r: seq<multiset<string>>)
    requires Fits(s)
    ensures |r| == |s.read| && forall i :: 0 <= i < |r| ==> r[i] == Unread(s.pipe.workers[i], s.read[i])
  {
    seq(|s.read|, i requires 0 <= i < |s.read| && Fits(s) => Unread(s.pipe.workers[i], s.read[i]))
  }

  function ReadOf(s: State): (r: seq<multiset<string>>)
    requires Fits(s)
    ensures |r| == |s.read| && forall i :: 0 <= i < |r| ==> r[i] == Read(s.pipe.workers[i], s.read[i])
  {
    seq(|s.read|, i requires 0 <= i < |s.read| && Fits(s) => Read(s.pipe.workers[i], s.read[i]))
  }

  predicate Open(s: State)
  {
    s.pipe.caller.Calling? && !s.dealt
  }

  /** Roots still to be parsed, parsed, and dealt with. */
  function ToParse(s: State): multiset<string>
    requires Fits(s)
  {
    multiset(P.ToCome(s.pipe)) + Sum(UnreadOf(s))
  }

  function Parsed(s: State): multiset<string>
    requires Fits(s)
  {
    Sum(ReadOf(s)) + P.Inputs(s.pipe.resultQ) + (if Open(s) then multiset{s.pipe.caller.result.input} else multiset{})
  }

  function RootsOf(rs: seq<P.Result<string, ()>>): (r: seq<string>)
    ensures |r| == |rs| && forall i :: 0 <= i < |r| ==> r[i] == rs[i].input
  {
    seq(|rs|, i requires 0 <= i < |rs| => rs[i].input)
  }

  function Dealt(s: State): seq<string>
  {
    if Open(s) && s.pipe.delivered != [] then RootsOf(s.pipe.delivered[..|s.pipe.delivered| - 1])
    else RootsOf(s.pipe.delivered)
  }

  /** The action takes its root from one place to the next, and nothing else moves. */
  ghost predicate Acts(action: Action, toParse: multiset<string>, parsed: multiset<string>, dealt: seq<string>,
                       toParse': multiset<string>, parsed': multiset<string>, dealt': seq<string>)
  {
    match action
    case Lookup(p) =>
      p in toParse && toParse' == toParse - multiset{p} && parsed' == parsed + multiset{p} && dealt' == dealt
    case Deal(p) => p in parsed && toParse' == toParse && parsed' == parsed - multiset{p} && dealt' == dealt + [p]
    case Nothing => toParse' == toParse && parsed' == parsed && dealt' == dealt
  }

  ghost predicate IsAction(s: State, move: Move)
    requires Fits(s) && Enabled(s, move)
  {
    var t := Do(s, move);
    Acts(ActionOf(s, move), ToParse(s), Parsed(s), Dealt(s), ToParse(t), Parsed(t), Dealt(t))
  }

  /** One worker's change shows in the sums. */
  lemma WorkerChanges(s: State, t: State, i: nat)
    requires Fits(s) && Fits(t) && i < |s.pipe.workers| == |t.pipe.workers|
    requires forall j :: 0 <= j < |s.read| && j != i ==>
               s.pipe.workers[j] == t.pipe.workers[j] && s.read[j] == t.read[j]
    ensures Sum(UnreadOf(t)) + Unread(s.pipe.workers[i], s.read[i]) ==
              Sum(UnreadOf(s)) + Unread(t.pipe.workers[i], t.read[i])
    ensures Sum(ReadOf(t)) + Read(s.pipe.workers[i], s.read[i]) == Sum(ReadOf(s)) + Read(t.pipe.workers[i], t.read[i])
  {
    hide Sum, Unread, Read;
    SumUpdate(UnreadOf(s), i, Unread(t.pipe.workers[i], t.read[i]));
    SumUpdate(ReadOf(s), i, Read(t.pipe.workers[i], t.read[i]));
    assert UnreadOf(t) == UnreadOf(s)[i := Unread(t.pipe.workers[i], t.read[i])];
    assert ReadOf(t) == ReadOf(s)[i := Read(t.pipe.workers[i], t.read[i])];
  }

  lemma SameWorkers(s: State, t: State)
    requires Fits(s) && Fits(t) && s.pipe.workers == t.pipe.workers && s.read == t.read
    ensures UnreadOf(s) == UnreadOf(t) && ReadOf(s) == ReadOf(t)
  {
  }

  /** What a step of the pipeline leaves, but for the token. */
  lemma StepIs(s: State, step: P.Step)
    requires Fits(s) && Enabled(s, Step(step))
    ensures P.Enabled(s.pipe, step) && Ready(s, step)
    ensures var t := Do(s, Step(step));
            && t.pipe == P.Do(s.pipe, step, ParseJob) && t.dealt == (s.dealt && !step.Receive? && !step.Return?)
            && t.read == if step.HandOver? then s.read[step.worker := false] else s.read
  {
    hide P.Do, T.Do, Ready;
  }

  /** States that look the same to the indexer. */
  lemma SameView(s: State, t: State)
    requires Fits(s) && Fits(t) && Sum(UnreadOf(t)) == Sum(UnreadOf(s)) && Sum(ReadOf(t)) == Sum(ReadOf(s))
    requires P.ToCome(t.pipe) == P.ToCome(s.pipe)
    requires t.pipe.resultQ == s.pipe.resultQ && t.pipe.delivered == s.pipe.delivered
    requires (Open(t) <==> Open(s)) && (Open(s) ==> t.pipe.caller == s.pipe.caller)
    ensures ToParse(t) == ToParse(s) && Parsed(t) == Parsed(s) && Dealt(t) == Dealt(s)
  {
    hide Sum, P.Inputs, UnreadOf, ReadOf, RootsOf, Open, P.ToCome;
  }

  lemma OfferActs(s: State)
    requires Fits(s) && Enabled(s, Step(P.Offer))
    ensures IsAction(s, Step(P.Offer))
  {
    hide Sum, Do, Enabled, UnreadOf, ReadOf, ToParse, Parsed, Dealt;
    var t := Do(s, Step(P.Offer));
    StepIs(s, P.Offer);
    SameWorkers(s, t);
    assert P.ToCome(t.pipe) == P.ToCome(s.pipe);
    SameView(s, t);
  }

  /** A worker's root moves from one place to another. */
  lemma WorkerMoves(s: State, t: State, i: nat)
    requires Fits(s) && Fits(t) && i < |s.pipe.workers| == |t.pipe.workers|
    requires forall j :: 0 <= j < |s.read| && j != i ==>
               s.pipe.workers[j] == t.pipe.workers[j] && s.read[j] == t.read[j]
    ensures var u, u' := Unread(s.pipe.workers[i], s.read[i]), Unread(t.pipe.workers[i], t.read[i]);
            && (u == u' ==> Sum(UnreadOf(t)) == Sum(UnreadOf(s)))
            && (u == multiset{} ==> Sum(UnreadOf(t)) == Sum(UnreadOf(s)) + u')
            && (u' == multiset{} ==> Sum(UnreadOf(t)) + u == Sum(UnreadOf(s)))
    ensures var r, r' := Read(s.pipe.workers[i], s.read[i]), Read(t.pipe.workers[i], t.read[i]);
            && (r == r' ==> Sum(ReadOf(t)) == Sum(ReadOf(s)))
            && (r == multiset{} ==> Sum(ReadOf(t)) == Sum(ReadOf(s)) + r')
            && (r' == multiset{} ==> Sum(ReadOf(t)) + r == Sum(ReadOf(s)))
  {
    hide Sum, Unread, Read, UnreadOf, ReadOf;
    WorkerChanges(s, t, i);
    Transfer(Sum(UnreadOf(s)), Sum(UnreadOf(t)), Unread(s.pipe.workers[i], s.read[i]),
      Unread(t.pipe.workers[i], t.read[i]));
    Transfer(Sum(ReadOf(s)), Sum(ReadOf(t)), Read(s.pipe.workers[i], s.read[i]), Read(t.pipe.workers[i], t.read[i]));
  }

  lemma Transfer(a: multiset<string>, b: multiset<string>, x: multiset<string>, y: multiset<string>)
    requires b + x == a + y
    ensures (x == y ==> b == a) && (x == multiset{} ==> b == a + y) && (y == multiset{} ==> b + x == a)
  {
    if x == y {
      P.Cancel(b, a, x);
    }
  }

  lemma HandOverActs(s: State, i: nat)
    requires Fits(s) && Enabled(s, Step(P.HandOver(i)))
    ensures IsAction(s, Step(P.HandOver(i)))
  {
    hide Do, Enabled, ToParse, Parsed, Dealt;
    StepIs(s, P.HandOver(i));
    HandOverKeeps(s, Do(s, Step(P.HandOver(i))), i);
  }

  lemma HandOverKeeps(s: State, t: State, i: nat)
    requires Fits(s) && Fits(t) && P.Enabled(s.pipe, P.HandOver(i)) && t.pipe == P.Do(s.pipe, P.HandOver(i), ParseJob)
    requires t.read == s.read[i := false] && t.dealt == s.dealt
    ensures ToParse(t) == ToParse(s) && Parsed(t) == Parsed(s) && Dealt(t) == Dealt(s)
  {
    hide Sum, P.Inputs, UnreadOf, ReadOf, RootsOf, ToParse;
    WorkerMoves(s, t, i);
    HandedOver(s, t, i);
  }

  lemma HandedOver(s: State, t: State, i: nat)
    requires Fits(s) && Fits(t) && P.Enabled(s.pipe, P.HandOver(i)) && t.pipe == P.Do(s.pipe, P.HandOver(i), ParseJob)
    requires Sum(UnreadOf(t)) == Sum(UnreadOf(s)) + multiset{s.pipe.setup.item}
    ensures ToParse(t) == ToParse(s)
  {
    hide Sum, UnreadOf;
    var item, todo := s.pipe.setup.item, s.pipe.setup.todo;
    Regroup(multiset([item] + todo), multiset(todo), Sum(UnreadOf(s)), Sum(UnreadOf(t)), multiset{item});
  }

  lemma Regroup(a: multiset<string>, a': multiset<string>, b: multiset<string>, b': multiset<string>,
                x: multiset<string>)
    requires a == x + a' && b' == b + x
    ensures a' + b' == a + b
  {
  }

  lemma WorkActs(s: State, i: nat)
    requires Fits(s) && Enabled(s, Step(P.Work(i)))
    ensures IsAction(s, Step(P.Work(i)))
  {
    hide Sum, Do, Enabled, UnreadOf, ReadOf, ToParse, Parsed, Dealt;
    var t := Do(s, Step(P.Work(i)));
    StepIs(s, P.Work(i));
    WorkerMoves(s, t, i);
    SameView(s, t);
  }

  lemma SendActs(s: State, i: nat)
    requires Fits(s) && Enabled(s, Step(P.Send(i)))
    ensures IsAction(s, Step(P.Send(i)))
  {
    hide Do, Enabled, ToParse, Parsed, Dealt;
    SendIs(s, i);
    SendKeeps(s, Do(s, Step(P.Send(i))), i);
  }

  lemma SendIs(s: State, i: nat)
    requires Fits(s) && Enabled(s, Step(P.Send(i)))
    ensures i < |s.pipe.workers| && s.pipe.workers[i].Holding?
    ensures var t := Do(s, Step(P.Send(i)));
            && t.pipe.setup == s.pipe.setup && t.pipe.unoffered == s.pipe.unoffered
            && t.read == s.read && t.dealt == s.dealt
            && t.pipe.caller == s.pipe.caller && t.pipe.delivered == s.pipe.delivered
            && t.pipe.workers == s.pipe.workers[i := P.Idle]
            && t.pipe.resultQ == s.pipe.resultQ + [s.pipe.workers[i].result]
  {
  }

  lemma SendKeeps(s: State, t: State, i: nat)
    requires Fits(s) && Fits(t) && i < |s.pipe.workers| && s.pipe.workers[i].Holding?
    requires t.pipe.setup == s.pipe.setup && t.pipe.unoffered == s.pipe.unoffered && t.read == s.read
    requires t.dealt == s.dealt
    requires t.pipe.caller == s.pipe.caller && t.pipe.delivered == s.pipe.delivered
    requires t.pipe.workers == s.pipe.workers[i := P.Idle]
    requires t.pipe.resultQ == s.pipe.resultQ + [s.pipe.workers[i].result]
    ensures ToParse(t) == ToParse(s) && Parsed(t) == Parsed(s) && Dealt(t) == Dealt(s)
  {
    hide Sum, P.Inputs, UnreadOf, ReadOf, RootsOf;
    WorkerMoves(s, t, i);
    P.InputsLast(t.pipe.resultQ, s.pipe.resultQ, s.pipe.workers[i].result);
    Regroup(Sum(ReadOf(s)), Sum(ReadOf(t)), P.Inputs(s.pipe.resultQ), P.Inputs(t.pipe.resultQ),
            multiset{s.pipe.workers[i].result.input});
  }

  lemma ExitActs(s: State, i: nat)
    requires Fits(s) && Enabled(s, Step(P.Exit(i)))
    ensures IsAction(s, Step(P.Exit(i)))
  {
    hide Sum, Do, Enabled, UnreadOf, ReadOf, ToParse, Parsed, Dealt;
    var t := Do(s, Step(P.Exit(i)));
    StepIs(s, P.Exit(i));
    WorkerMoves(s, t, i);
    SameView(s, t);
  }

  lemma ReceiveActs(s: State)
    requires Fits(s) && Enabled(s, Step(P.Receive))
    ensures IsAction(s, Step(P.Receive))
  {
    hide Do, Enabled, ToParse, Parsed, Dealt;
    var t := Do(s, Step(P.Receive));
    StepIs(s, P.Receive);
    SameWorkers(s, t);
    Opens(s, t);
  }

  /** The first result of the queue becomes the one being called. */
  lemma Opens(s: State, t: State)
    requires Fits(s) && Fits(t) && UnreadOf(t) == UnreadOf(s) && ReadOf(t) == ReadOf(s) && !t.dealt
    requires P.Enabled(s.pipe, P.Receive) && t.pipe == P.Do(s.pipe, P.Receive, ParseJob)
    ensures ToParse(t) == ToParse(s) && Parsed(t) == Parsed(s) && Dealt(t) == Dealt(s)
  {
    hide Sum, P.Inputs, UnreadOf, ReadOf, RootsOf, Parsed;
    OpensParsed(s, t);
    assert t.pipe.delivered[..|t.pipe.delivered| - 1] == s.pipe.delivered;
  }

  lemma OpensParsed(s: State, t: State)
    requires Fits(s) && Fits(t) && ReadOf(t) == ReadOf(s) && !t.dealt
    requires P.Enabled(s.pipe, P.Receive) && t.pipe == P.Do(s.pipe, P.Receive, ParseJob)
    ensures Parsed(t) == Parsed(s)
  {
    hide Sum, P.Inputs, UnreadOf, ReadOf, RootsOf;
    P.InputsFirst(s.pipe.resultQ);
    var rest, first := P.Inputs(s.pipe.resultQ[1..]), multiset{s.pipe.resultQ[0].input};
    assert Parsed(s) == Sum(ReadOf(s)) + P.Inputs(s.pipe.resultQ) + multiset{};
    assert Parsed(t) == Sum(ReadOf(s)) + rest + first;
    TakeOut(Sum(ReadOf(s)), P.Inputs(s.pipe.resultQ), rest, first);
  }

  lemma TakeOut(a: multiset<string>, b: multiset<string>, rest: multiset<string>, first: multiset<string>)
    requires b == first + rest
    ensures a + rest + first == a + b + multiset{}
  {
  }

  /** The result being called has been dealt with. */
  lemma Closes(s: State, t: State)
    requires Fits(s) && Fits(t) && UnreadOf(t) == UnreadOf(s) && ReadOf(t) == ReadOf(s)
    requires P.ToCome(t.pipe) == P.ToCome(s.pipe)
    requires t.pipe.resultQ == s.pipe.resultQ && t.pipe.delivered == s.pipe.delivered != []
    requires Open(s) && !Open(t) && s.pipe.caller.result == s.pipe.delivered[|s.pipe.delivered| - 1]
    ensures var p := s.pipe.caller.result.input;
            && p in Parsed(s) && ToParse(t) == ToParse(s)
            && Parsed(t) == Parsed(s) - multiset{p} && Dealt(t) == Dealt(s) + [p]
  {
    hide Sum, P.Inputs, UnreadOf, ReadOf, RootsOf, P.ToCome;
    DealtLast(s);
    PutOff(Sum(ReadOf(s)) + P.Inputs(s.pipe.resultQ), s.pipe.caller.result.input);
  }

  lemma PutOff(a: multiset<string>, p: string)
    ensures p in a + multiset{p} && a + multiset{} == a + multiset{p} - multiset{p}
  {
  }

  lemma SetupReturnActs(s: State, failed: bool)
    requires Fits(s) && Enabled(s, Step(P.SetupReturns(failed)))
    ensures IsAction(s, Step(P.SetupReturns(failed)))
  {
    hide Sum, Do, Enabled, UnreadOf, ReadOf, ToParse, Parsed, Dealt;
    var t := Do(s, Step(P.SetupReturns(failed)));
    StepIs(s, P.SetupReturns(failed));
    SameWorkers(s, t);
    SameView(s, t);
  }

  lemma ResultActs(s: State, failed: bool)
    requires Fits(s) && Enabled(s, Step(P.ResultReturns(failed))) && P.OwnResults(s.pipe, ParseJob)
    ensures IsAction(s, Step(P.ResultReturns(failed)))
  {
    hide Sum, Do, Enabled, P.Genuine, UnreadOf, ReadOf, ToParse, Parsed, Dealt;
    var t := Do(s, Step(P.ResultReturns(failed)));
    StepIs(s, P.ResultReturns(failed));
    SameWorkers(s, t);
    if s.dealt {
      SameView(s, t);
    } else {
      Closes(s, t);
    }
  }

  lemma DealtLast(s: State)
    requires s.pipe.delivered != []
    ensures RootsOf(s.pipe.delivered) ==
            RootsOf(s.pipe.delivered[..|s.pipe.delivered| - 1]) + [s.pipe.delivered[|s.pipe.delivered| - 1].input]
  {
  }

  /** The steps that only open and close channels, or end a loop. */
  predicate Plain(step: P.Step)
  {
    step.CloseErr? || step.CloseWork? || step.CloseResults? || step.EndLoop? || step.CloseTerm? || step.Return?
  }

  lemma PlainActs(s: State, step: P.Step)
    requires Fits(s) && Enabled(s, Step(step)) && Plain(step)
    ensures IsAction(s, Step(step))
  {
    hide Do, Enabled, ToParse, Parsed, Dealt;
    PlainIs(s, step);
    SameWorkers(s, Do(s, Step(step)));
    SameView(s, Do(s, Step(step)));
  }

  lemma PlainIs(s: State, step: P.Step)
    requires Fits(s) && Enabled(s, Step(step)) && Plain(step)
    ensures var t := Do(s, Step(step));
            && t.pipe.workers == s.pipe.workers && t.read == s.read && P.ToCome(t.pipe) == P.ToCome(s.pipe)
            && t.pipe.resultQ == s.pipe.resultQ && t.pipe.delivered == s.pipe.delivered
            && (Open(t) <==> Open(s)) && (Open(s) ==> t.pipe.caller == s.pipe.caller)
  {
    hide Do, Enabled;
    StepIs(s, step);
    PlainPipe(s.pipe, step);
  }

  lemma PlainPipe(pipe: Pipe, step: P.Step)
    requires P.Enabled(pipe, step) && Plain(step)
    ensures var t := P.Do(pipe, step, ParseJob);
            && t.workers == pipe.workers && P.ToCome(t) == P.ToCome(pipe)
            && t.resultQ == pipe.resultQ && t.delivered == pipe.delivered
            && (t.caller.Calling? <==> pipe.caller.Calling?) && (pipe.caller.Calling? ==> t.caller == pipe.caller)
  {
    if P.OfSetup(step) {
    } else if P.OfWorkers(step) {
    } else {
    }
  }

  lemma LookupActs(s: State, g: nat)
    requires Fits(s) && Enabled(s, Tx(T.Use(g))) && 1 <= g <= |s.read| && WorkerLinked(s, g - 1)
    ensures IsAction(s, Tx(T.Use(g)))
  {
    hide Do, Enabled, ToParse, Parsed, Dealt, WorkerLinked;
    LookupIs(s, g);
    LookupMoves(s, Do(s, Tx(T.Use(g))), g - 1);
  }

  lemma LookupIs(s: State, g: nat)
    requires Fits(s) && Enabled(s, Tx(T.Use(g))) && 1 <= g <= |s.read| && WorkerLinked(s, g - 1)
    ensures s.pipe.workers[g - 1].Working? && !s.read[g - 1]
    ensures var t := Do(s, Tx(T.Use(g)));
            t.pipe == s.pipe && t.read == s.read[g - 1 := true] && t.dealt == s.dealt
  {
  }

  lemma LookupMoves(s: State, t: State, i: nat)
    requires Fits(s) && Fits(t) && i < |s.read| && s.pipe.workers[i].Working? && !s.read[i]
    requires t.pipe == s.pipe && t.read == s.read[i := true] && t.dealt == s.dealt
    ensures var p := multiset{s.pipe.workers[i].input};
            p <= ToParse(s) && ToParse(t) == ToParse(s) - p && Parsed(t) == Parsed(s) + p && Dealt(t) == Dealt(s)
  {
    hide Sum, P.Inputs, UnreadOf, ReadOf, RootsOf, P.ToCome;
    WorkerMoves(s, t, i);
  }

  lemma DealActs(s: State)
    requires Fits(s) && Enabled(s, Tx(T.Use(Caller(s)))) && CallerLinked(s) && P.OwnResults(s.pipe, ParseJob)
    ensures IsAction(s, Tx(T.Use(Caller(s))))
  {
    hide Sum, T.Do, P.Genuine, UnreadOf, ReadOf, ToParse, Parsed, Dealt;
    var t := Do(s, Tx(T.Use(Caller(s))));
    SameWorkers(s, t);
    if s.pipe.caller.Calling? {
      Closes(s, t);
    } else {
      SameView(s, t);
    }
  }

  lemma OtherUseActs(s: State, use: T.Step)
    requires Fits(s) && Enabled(s, Tx(use)) && !(use.Use? && 1 <= use.g <= Caller(s))
    ensures IsAction(s, Tx(use))
  {
    hide Sum, P.Inputs, T.Do;
    SameWorkers(s, Do(s, Tx(use)));
  }

  /** Nothing is refused before a result has failed. */
  lemma NotRefused(pipe: Pipe)
    requires P.Inv(pipe, ParseJob) && P.Enabled(pipe, P.Refuse)
    ensures pipe.resultFailed
  {
    hide P.Conserved, P.OwnResults;
    assert pipe.workers[0].Done? ==> pipe.workClosed;
  }

  lemma StepIsAction(s: State, step: P.Step)
    requires Inv(s) && Enabled(s, Step(step)) && !s.pipe.resultFailed
    ensures IsAction(s, Step(step))
  {
    hide *;
    InvFits(s);
    StepEnabled(s, step);
    match step {
      case Offer => OfferActs(s);
      case HandOver(i) => HandOverActs(s, i);
      case Refuse => NotRefused(s.pipe);
      case SetupReturns(failed) => SetupReturnActs(s, failed);
      case Work(i) => WorkActs(s, i);
      case Send(i) => SendActs(s, i);
      case Exit(i) => ExitActs(s, i);
      case Receive => ReceiveActs(s);
      case ResultReturns(failed) => ResultActs(s, failed);
      case _ =>
        OnlyPlain(step);
        PlainActs(s, step);
    }
  }

  lemma StepEnabled(s: State, step: P.Step)
    requires Inv(s) && Enabled(s, Step(step))
    ensures P.Enabled(s.pipe, step) && P.Inv(s.pipe, ParseJob) && P.OwnResults(s.pipe, ParseJob)
  {
    hide P.Enabled, T.Inv, Linked;
  }

  lemma OnlyPlain(step: P.Step)
    requires !step.Offer? && !step.HandOver? && !step.Refuse? && !step.SetupReturns? && !step.Work? && !step.Send?
    requires !step.Exit? && !step.Receive? && !step.ResultReturns?
    ensures Plain(step)
  {
  }

  lemma UseIsAction(s: State, use: T.Step)
    requires Inv(s) && Enabled(s, Tx(use))
    ensures IsAction(s, Tx(use))
  {
    hide Enabled, IsAction, T.Inv, P.Inv, WorkerLinked, CallerLinked, SetupLinked;
    if use.Use? && 1 <= use.g <= |s.read| {
      LookupActs(s, use.g);
    } else if use.Use? && use.g == Caller(s) {
      InvOwn(s);
      DealActs(s);
    } else {
      OtherUseActs(s, use);
    }
  }

  lemma InvOwn(s: State)
    requires Inv(s)
    ensures P.OwnResults(s.pipe, ParseJob)
  {
    hide P.OwnResults, T.Inv, Linked;
  }

  /** Until a result fails, every move of the goroutines is its action, or none. */
  lemma MoveIsAction(s: State, move: Move)
    requires Inv(s) && Enabled(s, move) && !s.pipe.resultFailed
    ensures Acts(ActionOf(s, move), ToParse(s), Parsed(s), Dealt(s),
                 ToParse(Do(s, move)), Parsed(Do(s, move)), Dealt(Do(s, move)))
  {
    hide Inv, Enabled, Acts, ToParse, Parsed, Dealt, Do, ActionOf;
    InvFits(s);
    match move {
      case Step(step) => StepIsAction(s, step);
      case Tx(use) => UseIsAction(s, use);
    }
  }

  // ----- a run of the goroutines, action by action -----

  /** The indexer's sets are what it sees of the state. */
  ghost predicate Matches(s: State, toList: seq<string>, waiting: set<string>, jobs: set<string>, done: seq<string>)
    requires Fits(s)
  {
    && (forall p :: ToParse(s)[p] == if p in toList || p in waiting then 1 else 0)
    && (forall p :: Parsed(s)[p] == if p in jobs then 1 else 0)
    && Dealt(s) == done
  }

  /** The inventory being called cannot be indexed after those dealt with before it. */
  ghost predicate RefusedNow(s: State, lib: Library, catalog: Catalog)
  {
    s.pipe.caller.Calling? && s.pipe.delivered != [] &&
    var p, before := s.pipe.caller.result.input, RootsOf(s.pipe.delivered[..|s.pipe.delivered| - 1]);
    catalog(p).Some? && !Acceptable(Effect(lib, catalog, before), catalog(p).value, p)
  }

  /** The result function fails exactly on inventories that cannot be indexed. */
  ghost predicate Answered(s: State, moves: seq<Move>, lib: Library, catalog: Catalog)
    requires Fits(s) && Possible(s, moves)
    decreases |moves|
  {
    moves == [] || (AnsweredOnce(s, moves[0], lib, catalog) && Answered(Do(s, moves[0]), moves[1..], lib, catalog))
  }

  ghost predicate AnsweredOnce(s: State, move: Move, lib: Library, catalog: Catalog)
  {
    move.Step? && move.step.ResultReturns? ==> (move.step.failed <==> RefusedNow(s, lib, catalog))
  }

  /** Where the indexer's run has got to, against where the goroutines have. */
  ghost predicate Abreast(s: State, run: Indexing)
    requires Fits(s)
    reads run, run.db, run.db.committed, run.tx
  {
    if run.stopped then
      && (s.pipe.resultFailed || (s.pipe.caller.Calling? && s.dealt && RefusedNow(s, run.lib0, run.catalog)))
      && s.pipe.delivered != [] && run.done == RootsOf(s.pipe.delivered[..|s.pipe.delivered| - 1])
    else
      && !s.pipe.resultFailed && Matches(s, run.ToList(), run.waiting, run.jobs.Keys, run.done)
      && (s.pipe.caller.Calling? && s.dealt ==> !RefusedNow(s, run.lib0, run.catalog))
  }

  lemma ListedFirst(run: Indexing)
    requires run.Valid() && !run.stopped
    ensures run.listed + run.ToList() == After(run.keys, "")
  {
    hide *;
    run.Parts();
    InPlaceList(run.keys, run.listed, run.ToList(), run.waiting, run.jobs.Keys, run.done);
  }

  lemma InPlaceList(keys: set<string>, listed: seq<string>, toList: seq<string>, waiting: set<string>,
                    parsed: set<string>,
                    done: seq<string>)
    requires InPlace(keys, listed, toList, waiting, parsed, done)
    ensures listed + toList == After(keys, "")
  {
    hide After;
  }

  lemma PageMoves(all: seq<string>, listed: seq<string>, toList: seq<string>, waiting: set<string>, items: seq<string>,
                  toList': seq<string>, waiting': set<string>)
    requires listed + toList == all == (listed + items) + toList'
    requires forall p :: p in waiting' <==> p in waiting || p in items
    ensures forall q :: q in toList' || q in waiting' <==> q in toList || q in waiting
  {
    assert toList == all[|listed|..] && items + toList' == all[|listed|..];
  }

  /** Lists pages until the root is there. */
  method ListUntil(run: Indexing, p: string)
    requires run.Valid() && !run.stopped && (p in run.ToList() || p in run.waiting)
    modifies run`cursor, run`listing, run`waiting, run`listed
    ensures run.Valid() && !run.stopped && p in run.waiting
    ensures forall q :: q in run.ToList() || q in run.waiting <==> q in old(run.ToList()) || q in old(run.waiting)
  {
    hide *;
    while p !in run.waiting
      invariant run.Valid() && !run.stopped && (p in run.ToList() || p in run.waiting)
      invariant forall q :: q in run.ToList() || q in run.waiting <==> q in old(run.ToList()) || q in old(run.waiting)
      decreases run.Left()
    {
      if !run.listing {
        run.NothingToList();
      }
      ghost var listed, toList, waiting := run.listed, run.ToList(), run.waiting;
      ListedFirst(run);
      run.ListPage();
      ListedFirst(run);
      PageMoves(After(run.keys, ""), listed, toList, waiting, run.listed[|listed|..], run.ToList(), run.waiting);
    }
  }

  // ----- one move -----

  lemma LookupMatches(s: State, t: State, p: string, toList: seq<string>, waiting: set<string>, jobs: set<string>,
                      done: seq<string>,
                      toList': seq<string>, waiting': set<string>)
    requires Fits(s) && Fits(t) && Matches(s, toList, waiting, jobs, done)
    requires Acts(Lookup(p), ToParse(s), Parsed(s), Dealt(s), ToParse(t), Parsed(t), Dealt(t))
    requires forall q :: q in toList' || q in waiting' <==> q in toList || q in waiting
    requires p in waiting' && p !in toList' && p !in jobs
    ensures Matches(t, toList', waiting' - {p}, jobs + {p}, done)
  {
    hide ToParse, Parsed, Dealt;
  }

  lemma DealMatches(s: State, t: State, p: string, toList: seq<string>, waiting: set<string>, jobs: set<string>,
                    done: seq<string>)
    requires Fits(s) && Fits(t) && Matches(s, toList, waiting, jobs, done)
    requires Acts(Deal(p), ToParse(s), Parsed(s), Dealt(s), ToParse(t), Parsed(t), Dealt(t))
    ensures p in jobs && Matches(t, toList, waiting, jobs - {p}, done + [p])
  {
    hide ToParse, Parsed, Dealt;
    assert Parsed(s)[p] > 0;
  }

  lemma NothingMatches(s: State, t: State, toList: seq<string>, waiting: set<string>, jobs: set<string>,
                       done: seq<string>)
    requires Fits(s) && Fits(t) && Matches(s, toList, waiting, jobs, done)
    requires Acts(Nothing, ToParse(s), Parsed(s), Dealt(s), ToParse(t), Parsed(t), Dealt(t))
    ensures Matches(t, toList, waiting, jobs, done)
  {
    hide ToParse, Parsed, Dealt;
  }

  /** A root that is to be parsed is to be listed or waits. */
  lemma LookupFound(s: State, t: State, p: string, toList: seq<string>, waiting: set<string>, jobs: set<string>,
                    done: seq<string>)
    requires Fits(s) && Fits(t) && Matches(s, toList, waiting, jobs, done)
    requires Acts(Lookup(p), ToParse(s), Parsed(s), Dealt(s), ToParse(t), Parsed(t), Dealt(t))
    ensures p in toList || p in waiting
  {
    hide ToParse, Parsed, Dealt;
    assert ToParse(s)[p] > 0;
  }

  lemma WaitingAlone(run: Indexing, p: string)
    requires run.Valid() && !run.stopped && p in run.waiting
    ensures p !in run.ToList() && p !in run.jobs
  {
    hide *;
    run.Parts();
    WaitsOnly(run.keys, run.listed, run.ToList(), run.waiting, run.jobs.Keys, run.done, p);
  }

  lemma WaitsOnly(keys: set<string>, listed: seq<string>, toList: seq<string>, waiting: set<string>,
                  parsed: set<string>,
                  done: seq<string>, p: string)
    requires InPlace(keys, listed, toList, waiting, parsed, done) && p in waiting
    ensures p !in toList && p !in parsed
  {
    hide After;
    OnceListed(keys, listed, toList);
  }

  /** While the result function runs, only its return changes the call. */
  lemma CallStays(pipe: Pipe, step: P.Step)
    requires P.Enabled(pipe, step) && pipe.caller.Calling?
    ensures var t := P.Do(pipe, step, ParseJob);
            && t.delivered == pipe.delivered
            && if step.ResultReturns? then t.resultFailed == (pipe.resultFailed || step.failed) && !t.caller.Calling?
               else t.caller == pipe.caller && t.resultFailed == pipe.resultFailed
  {
    if P.OfSetup(step) {
    } else if P.OfWorkers(step) {
    } else {
    }
  }

  lemma ResultStays(s: State, move: Move)
    requires Fits(s) && Enabled(s, move) && s.pipe.caller.Calling?
    ensures var t := Do(s, move).pipe;
            && t.delivered == s.pipe.delivered
            && if move.Step? && move.step.ResultReturns? then
                 t.resultFailed == (s.pipe.resultFailed || move.step.failed) && !t.caller.Calling?
               else t.caller == s.pipe.caller && t.resultFailed == s.pipe.resultFailed
  {
    hide Do, Enabled, T.Do, T.Enabled, P.Do, P.Enabled;
    MoveIsSteps(s, move);
    if move.Step? {
      CallStays(s.pipe, move.step);
    }
  }

  lemma DealtStays(s: State, move: Move)
    requires Fits(s) && Enabled(s, move) && s.pipe.caller.Calling? && s.dealt
    ensures Do(s, move).dealt
  {
    hide P.Do, T.Do, T.Enabled;
  }

  lemma SameRefusal(s: State, t: State, lib: Library, catalog: Catalog)
    requires t.pipe.caller == s.pipe.caller && t.pipe.delivered == s.pipe.delivered
    ensures RefusedNow(t, lib, catalog) <==> RefusedNow(s, lib, catalog)
  {
    hide Acceptable, Effect;
  }

  /** Once the indexer has stopped, the result function fails. */
  lemma StoppedStays(s: State, move: Move, lib: Library, catalog: Catalog)
    requires Fits(s) && Enabled(s, move) && AnsweredOnce(s, move, lib, catalog)
    requires s.pipe.resultFailed || (s.pipe.caller.Calling? && s.dealt && RefusedNow(s, lib, catalog))
    ensures var t := Do(s, move);
            t.pipe.resultFailed || (t.pipe.caller.Calling? && t.dealt && RefusedNow(t, lib, catalog))
  {
    hide Enabled, Do, RefusedNow;
    FailedStays(s, move);
    if !s.pipe.resultFailed {
      ResultStays(s, move);
      DealtStays(s, move);
      if !(move.Step? && move.step.ResultReturns?) {
        SameRefusal(s, Do(s, move), lib, catalog);
      }
    }
  }

  /** When a result is dealt with, it is the one being called, after those before it. */
  lemma DealIsOpen(s: State, move: Move)
    requires Inv(s) && Enabled(s, move) && ActionOf(s, move).Deal?
    ensures s.pipe.caller.Calling? && s.pipe.caller.result.input == ActionOf(s, move).path && s.pipe.delivered != []
    ensures Dealt(s) == RootsOf(s.pipe.delivered[..|s.pipe.delivered| - 1])
    ensures move == Tx(T.Use(Caller(s))) || (move.Step? && move.step.ResultReturns?)
  {
    hide T.Do, T.Inv, WorkersLinked, SetupLinked;
    InvOwn(s);
    hide P.Inv, P.Genuine;
  }

  /** So it is refused exactly if its inventory cannot be indexed after them. */
  lemma DealRefused(s: State, move: Move, lib: Library, catalog: Catalog)
    requires Inv(s) && Enabled(s, move) && ActionOf(s, move).Deal?
    ensures var p := ActionOf(s, move).path;
            RefusedNow(s, lib, catalog) <==>
              catalog(p).Some? && !Acceptable(Effect(lib, catalog, Dealt(s)), catalog(p).value, p)
  {
    hide Inv, Enabled, ActionOf, Acceptable, Effect, Dealt;
    DealIsOpen(s, move);
  }

  lemma DealEnds(s: State, move: Move, lib: Library, catalog: Catalog)
    requires Inv(s) && Enabled(s, move) && ActionOf(s, move).Deal? && !s.pipe.resultFailed
    requires AnsweredOnce(s, move, lib, catalog)
    ensures var t := Do(s, move);
            if RefusedNow(s, lib, catalog)
            then t.pipe.resultFailed || (t.pipe.caller.Calling? && t.dealt && RefusedNow(t, lib, catalog))
            else !t.pipe.resultFailed && (t.pipe.caller.Calling? && t.dealt ==> !RefusedNow(t, lib, catalog))
  {
    hide Inv, Enabled, ActionOf, RefusedNow, Do, Dealt;
    InvFits(s);
    DealIsOpen(s, move);
    ResultStays(s, move);
    if move.Tx? {
      UseDeals(s);
      SameRefusal(s, Do(s, move), lib, catalog);
    }
  }

  lemma UseDeals(s: State)
    requires Fits(s) && Enabled(s, Tx(T.Use(Caller(s))))
    ensures Do(s, Tx(T.Use(Caller(s)))).dealt
  {
    hide T.Do, T.Enabled;
  }

  /** Any other move leaves the call as it is, or begins or ends one. */
  lemma GoesOn(s: State, move: Move, lib: Library, catalog: Catalog)
    requires Inv(s) && Enabled(s, move) && !ActionOf(s, move).Deal? && !s.pipe.resultFailed
    requires AnsweredOnce(s, move, lib, catalog)
    requires s.pipe.caller.Calling? && s.dealt ==> !RefusedNow(s, lib, catalog)
    ensures var t := Do(s, move);
            !t.pipe.resultFailed && (t.pipe.caller.Calling? && t.dealt ==> !RefusedNow(t, lib, catalog))
  {
    hide Inv, Enabled, ActionOf, RefusedNow, Do;
    InvFits(s);
    var t := Do(s, move);
    if s.pipe.caller.Calling? {
      ResultStays(s, move);
      NotDealt(s, move);
      if !(move.Step? && move.step.ResultReturns?) {
        SameRefusal(s, t, lib, catalog);
      }
    } else {
      NoCall(s, move);
    }
  }

  lemma NotDealt(s: State, move: Move)
    requires Fits(s) && Enabled(s, move) && !ActionOf(s, move).Deal? && s.pipe.caller.Calling?
    ensures if move.Step? && move.step.ResultReturns? then s.dealt else Do(s, move).dealt == s.dealt
  {
    hide T.Do, P.Do;
  }

  lemma OnlyReceiveCalls(pipe: Pipe, step: P.Step)
    requires P.Enabled(pipe, step) && !pipe.caller.Calling?
    ensures var t := P.Do(pipe, step, ParseJob);
            t.resultFailed == pipe.resultFailed && (t.caller.Calling? ==> step.Receive?)
  {
    if P.OfSetup(step) {
    } else if P.OfWorkers(step) {
    } else {
    }
  }

  lemma NoCall(s: State, move: Move)
    requires Fits(s) && Enabled(s, move) && !s.pipe.caller.Calling?
    ensures var t := Do(s, move); t.pipe.resultFailed == s.pipe.resultFailed && (t.pipe.caller.Calling? ==> !t.dealt)
  {
    hide Do, Enabled, T.Do, T.Enabled, P.Do, P.Enabled;
    MoveIsSteps(s, move);
    if move.Step? {
      OnlyReceiveCalls(s.pipe, move.step);
      ReceiveOpens(s, move.step);
    }
  }

  lemma ReceiveOpens(s: State, step: P.Step)
    requires Fits(s) && Enabled(s, Step(step))
    ensures step.Receive? ==> !Do(s, Step(step)).dealt
  {
    hide P.Do, T.Do;
  }

  // ----- the runs side by side -----

  lemma AbreastIs(s: State, run: Indexing)
    requires Fits(s)
    ensures Abreast(s, run) <==>
            if run.stopped then
              && (s.pipe.resultFailed || (s.pipe.caller.Calling? && s.dealt && RefusedNow(s, run.lib0, run.catalog)))
              && s.pipe.delivered != [] && run.done == RootsOf(s.pipe.delivered[..|s.pipe.delivered| - 1])
            else
              && !s.pipe.resultFailed && Matches(s, run.ToList(), run.waiting, run.jobs.Keys, run.done)
              && (s.pipe.caller.Calling? && s.dealt ==> !RefusedNow(s, run.lib0, run.catalog))
  {
    hide RefusedNow, Matches, RootsOf;
  }

  /** Once the indexer has stopped, nothing more is delivered. */
  lemma NoneDelivered(s: State, move: Move)
    requires Inv(s) && Enabled(s, move) && (s.pipe.resultFailed || s.pipe.caller.Calling?)
    ensures Do(s, move).pipe.delivered == s.pipe.delivered
  {
    hide Inv, Do, Enabled, T.Do, T.Enabled, P.Do, P.Enabled;
    InvFits(s);
    InvOutcome(s);
    if s.pipe.caller.Calling? {
      ResultStays(s, move);
    } else {
      MoveIsSteps(s, move);
      if move.Step? {
        P.StepAfterError(s.pipe, move.step, ParseJob);
      }
    }
  }

  lemma InvOutcome(s: State)
    requires Inv(s)
    ensures P.Outcome(s.pipe)
  {
    hide T.Inv, Linked, P.Conserved, P.OwnResults, P.Channels, P.Outcome;
  }

  lemma MatchesDealt(s: State, toList: seq<string>, waiting: set<string>, jobs: set<string>, done: seq<string>)
    requires Fits(s) && Matches(s, toList, waiting, jobs, done)
    ensures Dealt(s) == done
  {
    hide ToParse, Parsed, Dealt;
  }

  /** The indexer takes the action of one move. */
  method FollowMove(run: Indexing, s: State, move: Move, now: int)
    requires run.Valid() && Inv(s) && Fits(s) && Enabled(s, move) && Abreast(s, run)
    requires AnsweredOnce(s, move, run.lib0, run.catalog)
    modifies run, run.db, run.tx
    ensures run.Valid() && Abreast(Do(s, move), run) && (fresh(run.tx) || run.tx == old(run.tx))
  {
    hide *;
    var t := Do(s, move);
    AbreastIs(s, run);
    if run.stopped {
      StoppedStays(s, move, run.lib0, run.catalog);
      NoneDelivered(s, move);
      AbreastIs(t, run);
      return;
    }
    MoveIsAction(s, move);
    ghost var toList, waiting, jobs, done := run.ToList(), run.waiting, run.jobs.Keys, run.done;
    match ActionOf(s, move) {
      case Lookup(p) =>
        LookupFound(s, t, p, toList, waiting, jobs, done);
        ListUntil(run, p);
        WaitingAlone(run, p);
        LookupMatches(s, t, p, toList, waiting, jobs, done, run.ToList(), run.waiting);
        GoesOn(s, move, run.lib0, run.catalog);
        run.Parse(p);
      case Deal(p) =>
        DealMatches(s, t, p, toList, waiting, jobs, done);
        MatchesDealt(s, toList, waiting, jobs, done);
        DealIsOpen(s, move);
        DealRefused(s, move, run.lib0, run.catalog);
        NoneDelivered(s, move);
        DealEnds(s, move, run.lib0, run.catalog);
        run.Deliver(p, now);
      case Nothing =>
        NothingMatches(s, t, toList, waiting, jobs, done);
        GoesOn(s, move, run.lib0, run.catalog);
    }
    AbreastIs(t, run);
  }

  lemma {:induction false} SumOfNone(ms: seq<multiset<string>>)
    requires forall i :: 0 <= i < |ms| ==> ms[i] == multiset{}
    ensures Sum(ms) == multiset{}
    decreases |ms|
  {
    if ms != [] {
      SumOfNone(ms[..|ms| - 1]);
    }
  }

  lemma {:induction false} CountOf(items: seq<string>, p: string)
    requires forall i, j :: 0 <= i < j < |items| ==> items[i] != items[j]
    ensures multiset(items)[p] == if p in items then 1 else 0
    decreases |items|
  {
    if items != [] {
      var n := |items| - 1;
      CountOf(items[..n], p);
      assert items == items[..n] + [items[n]];
    }
  }

  /** In the beginning all is to be parsed. */
  lemma BeginsAbreast(s: State, items: seq<string>, n: nat)
    requires Init(s, items, n) && forall i, j :: 0 <= i < j < |items| ==> items[i] != items[j]
    ensures Matches(s, items, {}, {}, []) && !s.pipe.resultFailed && !s.pipe.caller.Calling?
  {
    hide Init, ToParse, Parsed, Dealt;
    InitSize(s, items, n);
    AllToParse(s, items, n);
    forall p ensures ToParse(s)[p] == if p in items then 1 else 0 {
      CountOf(items, p);
    }
  }

  lemma AllToParse(s: State, items: seq<string>, n: nat)
    requires Init(s, items, n)
    ensures ToParse(s) == multiset(items) && Parsed(s) == multiset{} && Dealt(s) == []
    ensures !s.pipe.resultFailed && !s.pipe.caller.Calling?
  {
    SumOfNone(UnreadOf(s));
    SumOfNone(ReadOf(s));
    hide Sum, UnreadOf, ReadOf;
  }

  /** When the pipeline is back without an error, nothing is left. */
  lemma CleanEnd(s: State)
    requires Inv(s) && s.pipe.caller.Returned? && !s.pipe.resultFailed && s.pipe.unoffered == []
    ensures ToParse(s) == multiset{} && Parsed(s) == multiset{} && Dealt(s) == RootsOf(s.pipe.delivered)
  {
    hide T.Inv, Linked, P.Conserved, P.OwnResults, RootsOf;
    ReturnedIsDone(s.pipe);
    InvFits(s);
    SumOfNone(UnreadOf(s));
    SumOfNone(ReadOf(s));
  }

  lemma FirstMove(s: State, moves: seq<Move>, lib: Library, catalog: Catalog)
    requires Fits(s) && Possible(s, moves) && Answered(s, moves, lib, catalog) && moves != []
    ensures Enabled(s, moves[0]) && AnsweredOnce(s, moves[0], lib, catalog)
    ensures var t := Do(s, moves[0]);
            Possible(t, moves[1..]) && Answered(t, moves[1..], lib, catalog) && End(t, moves[1..]) == End(s, moves)
  {
    hide Enabled, Do, AnsweredOnce;
  }

  lemma NoMoves(s: State)
    requires Fits(s)
    ensures Possible(s, []) && End(s, []) == s
  {
  }

  /** Any run of the goroutines, for any number of workers, is followed to its end. */
  method Follow(run: Indexing, s: State, moves: seq<Move>)
    requires run.Valid() && Inv(s) && Fits(s) && Possible(s, moves) && Abreast(s, run)
    requires Answered(s, moves, run.lib0, run.catalog)
    modifies run, run.db, run.tx
    ensures run.Valid() && Abreast(End(s, moves), run) && (fresh(run.tx) || run.tx == old(run.tx))
  {
    hide *;
    var at, left := s, moves;
    while left != []
      invariant Fits(at) && Inv(at) && Possible(at, left) && End(at, left) == End(s, moves)
      invariant Answered(at, left, run.lib0, run.catalog)
      invariant run.Valid() && Abreast(at, run) && (fresh(run.tx) || run.tx == old(run.tx))
      decreases |left|
    {
      var now: int := *;
      FirstMove(at, left, run.lib0, run.catalog);
      MoveKeepsInv(at, left[0]);
      FollowMove(run, at, left[0], now);
      at, left := Do(at, left[0]), left[1..];
    }
    NoMoves(at);
  }

  /** Reads the pages that are left, which are empty. */
  method ListRest(run: Indexing)
    requires run.Valid() && !run.stopped && forall q :: q !in run.ToList() && q !in run.waiting
    modifies run`cursor, run`listing, run`waiting, run`listed
    ensures run.Valid() && !run.stopped && !run.listing && run.waiting == {}
  {
    hide *;
    while run.listing
      invariant run.Valid() && !run.stopped && forall q :: q !in run.ToList() && q !in run.waiting
      decreases run.Left()
    {
      ghost var listed, toList, waiting := run.listed, run.ToList(), run.waiting;
      ListedFirst(run);
      run.ListPage();
      ListedFirst(run);
      PageMoves(After(run.keys, ""), listed, toList, waiting, run.listed[|listed|..], run.ToList(), run.waiting);
    }
  }

  lemma AllListed(keys: set<string>)
    ensures var items := After(keys, ""); forall i, j :: 0 <= i < j < |items| ==> items[i] != items[j]
  {
    var items := After(keys, "");
    forall i, j | 0 <= i < j < |items| ensures items[i] != items[j] {
      LessIsStrict(items[i], items[j]);
    }
  }

  lemma NothingLeft(s: State, toList: seq<string>, waiting: set<string>, jobs: map<string, Job>, done: seq<string>)
    requires Fits(s) && Matches(s, toList, waiting, jobs.Keys, done)
    requires ToParse(s) == multiset{} && Parsed(s) == multiset{}
    ensures (forall p :: p !in toList && p !in waiting) && jobs == map[]
  {
    hide ToParse, Parsed, Dealt;
    forall p ensures p !in toList && p !in waiting && p !in jobs {
      assert ToParse(s)[p] == 0 && Parsed(s)[p] == 0;
    }
  }

  /** A new run of the indexer is abreast of the goroutines' beginning. */
  lemma NewAbreast(s: State, run: Indexing, n: nat)
    requires Init(s, After(run.keys, ""), n)
    requires !run.stopped && run.listing && run.cursor == "" && run.waiting == {} && run.jobs == map[] && run.done == []
    ensures Abreast(s, run)
  {
    hide Init, After, Matches, RefusedNow;
    InitSize(s, After(run.keys, ""), n);
    AllListed(run.keys);
    BeginsAbreast(s, After(run.keys, ""), n);
    NoKeys(run.jobs);
    AbreastIs(s, run);
  }

  lemma EndsAbreast(s: State, run: Indexing)
    requires Inv(s) && Fits(s) && run.Valid() && Abreast(s, run) && s.pipe.caller.Returned?
    ensures run.stopped <==> s.pipe.resultFailed
    ensures run.stopped ==> s.pipe.delivered != [] && run.done == RootsOf(s.pipe.delivered[..|s.pipe.delivered| - 1])
    ensures !run.stopped ==> run.done == RootsOf(s.pipe.delivered)
    ensures !run.stopped && s.pipe.unoffered == [] ==>
              (forall p :: p !in run.ToList() && p !in run.waiting) && run.jobs == map[]
  {
    hide Inv, Indexing.Valid, RefusedNow, Matches, ToParse, Parsed, RootsOf;
    AbreastIs(s, run);
    if !run.stopped {
      MatchesDealt(s, run.ToList(), run.waiting, run.jobs.Keys, run.done);
      DealtAtEnd(s);
      if s.pipe.unoffered == [] {
        CleanEnd(s);
        NothingLeft(s, run.ToList(), run.waiting, run.jobs, run.done);
      }
    }
  }

  lemma DealtAtEnd(s: State)
    requires s.pipe.caller.Returned?
    ensures Dealt(s) == RootsOf(s.pipe.delivered)
  {
    hide RootsOf;
  }

  /** The results dealt with: all that were delivered, but for one that is refused. */
  lemma DoneOf(s: State, done: seq<string>, stopped: bool)
    requires if stopped then s.pipe.delivered != [] && done == RootsOf(s.pipe.delivered[..|s.pipe.delivered| - 1])
             else done == RootsOf(s.pipe.delivered)
    ensures |done| == if stopped then |s.pipe.delivered| - 1 else |s.pipe.delivered|
    ensures done == RootsOf(s.pipe.delivered)[..|done|]
  {
  }

  lemma ReturnedHow(s: State)
    requires Inv(s) && s.pipe.caller.Returned?
    ensures s.pipe.caller.failed <==> s.pipe.resultFailed || s.pipe.setupFailed
  {
    hide T.Inv, Linked, P.Conserved, P.OwnResults;
  }

  /** Commits that show some of the results show some of more results. */
  lemma MoreResults(commits: seq<Snapshot>, earlier: seq<Snapshot>, lib: Library, catalog: Catalog, keys: set<string>,
                    done: seq<string>, more: seq<string>)
    requires CommitsShown(commits, earlier, lib, catalog, keys, done) && done <= more
    ensures CommitsShown(commits, earlier, lib, catalog, keys, more)
  {
    hide Effect;
    forall j | |earlier| <= j < |commits| ensures CommitShown(commits[j], lib, catalog, keys, more) {
      assert CommitShown(commits[j], lib, catalog, keys, done);
      var k :| 0 <= k <= |done| && commits[j].lib == Effect(lib, catalog, done[..k]);
      assert more[..k] == done[..k];
    }
  }

  /** An indexing run as its goroutines make it, in whatever order they take their
      steps and with any number of workers. When the pipeline comes back without an
      error, the database shows the inventories of all roots, each indexed once, in
      the order in which their results were delivered; otherwise those of the first
      `kept` results, among which a multiple of ten were indexed, while fewer than ten
      of those after them were. */
  method IndexByGoroutines(db: Database, catalog: Catalog, h: Hash, ghost known: Inventory -> bool,
                           ghost told: iset<Tree>, s: State, moves: seq<Move>, ghost n: nat)
      returns (ok: bool, ghost kept: nat, ghost results: seq<Job>)
    requires Telling(h, told, catalog, db.committed.roots.Keys) && Stocked(db.committed.den, told)
    requires db.committed.Valid(h)
    requires Lawful(catalog, db.committed.roots.Keys, known) && Sourced(db.committed.lib, known)
    requires Init(s, After(db.committed.roots.Keys, ""), n) && Fits(s) && Possible(s, moves)
    requires Answered(s, moves, db.committed.lib, catalog)
    requires var pipe := End(s, moves).pipe;
             pipe.caller.Returned? && (!pipe.setupFailed ==> pipe.resultFailed || pipe.unoffered == [])
    modifies db
    ensures db.committed.Valid(h) && Sourced(db.committed.lib, known) && Stocked(db.committed.den, told)
    ensures db.committed.roots.Keys == old(db.committed.roots).Keys
    ensures ok <==> !End(s, moves).pipe.caller.failed
    ensures var paths := RootsOf(End(s, moves).pipe.delivered);
            && kept <= |paths| && db.committed.lib == Effect(old(db.committed.lib), catalog, paths[..kept])
            && (ok ==> kept == |paths|)
            && (ok ==> forall p :: p in paths <==> p in db.committed.roots)
            && (ok ==> forall i, j :: 0 <= i < j < |paths| ==> paths[i] != paths[j])
    ensures CommitsShown(db.commits, old(db.commits), old(db.committed.lib), catalog, db.committed.roots.Keys,
                         RootsOf(End(s, moves).pipe.delivered))
    ensures var pipe := End(s, moves).pipe;
            && |results| == (if pipe.resultFailed then |pipe.delivered| - 1 else |pipe.delivered|)
            && ResultsRead(old(db.committed.lib), catalog, db.committed.roots.Keys,
                           RootsOf(pipe.delivered)[..|results|], results)
            && kept <= |results|
            && (!ok ==> Renewals(results[..kept]) % 10 == 0 && Renewals(results[kept..]) < 10)
            && OnlyRenewed(old(db.committed.roots), db.committed.roots, RootsOf(pipe.delivered)[..kept],
                           results[..kept])
  {
    hide *;
    Runs.NoEmptyRoot(db.committed, h);
    var run := new Indexing(db, catalog, h, known, told);
    InitInv(s, After(run.keys, ""), n);
    NewAbreast(s, run, n);
    Follow(run, s, moves);
    var t := End(s, moves);
    RunKeepsInv(s, moves);
    ReturnedHow(t);
    EndsAbreast(t, run);
    run.Parts();
    DoneOf(t, run.done, run.stopped);
    ok, kept, results := !t.pipe.caller.failed, run.kept, run.results;
    if ok {
      ListRest(run);
      run.Finish();
      kept := |run.done|;
      assert run.done[..kept] == run.done && results[..kept] == results;
    }
    assert run.done[..kept] == RootsOf(t.pipe.delivered)[..kept];
    MoreResults(db.commits, run.earlier, run.lib0, catalog, run.keys, run.done, RootsOf(t.pipe.delivered));
  }
}
