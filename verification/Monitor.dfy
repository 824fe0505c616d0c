/** The log monitor, before shutdown: sessions handed to the monitor's loop,
    messages sent to each of them, and sessions given back. Each step is one
    channel operation or one send to a session's stream. */
module Monitor {

  import opened Trees

  const MAX_SESSIONS := 64

  datatype MonError = TooMany | SendFailed

  /** Where the handler of a request is. */
  datatype Phase =
    | Requesting    // offers its request to the loop
    | Watching      // waits for its task, its error channel or its client
    | Freeing       // offers to free its session
    | Leaving       // returns, and closes its error channel on the way out
    | Gone

  /** A handler and its error channel, which has room for one value. */
  datatype Handler = Handler(phase: Phase, buffered: seq<MonError>, closed: bool)

  /** Where the monitor's loop is. */
  datatype Loop =
    | Selecting
    | Broadcasting(left: set<nat>)
    | Reporting(to: nat, error: MonError, left: set<nat>)
    | Deleting(session: nat)

  datatype State = State(handlers: seq<Handler>, sessions: set<nat>, loop: Loop, panicked: bool)

  datatype Step =
    | Arrive
    | Establish(h: nat)
    | TaskOrClientEnds(h: nat)
    | ReadErr(h: nat)
    | Free(h: nat)
    | Delete
    | Close(h: nat)
    | Message
    | SendTo(h: nat, works: bool)
    | Report
    | AllSent

  function Init(): State { State([], {}, Selecting, false) }

  predicate Enabled(s: State, step: Step)
  {
    match step
    case Arrive => true
    case Establish(h) => s.loop.Selecting? && h < |s.handlers| && s.handlers[h].phase.Requesting?
    case TaskOrClientEnds(h) => h < |s.handlers| && s.handlers[h].phase.Watching?
    case ReadErr(h) => h < |s.handlers| && s.handlers[h].phase.Watching? && s.handlers[h].buffered != []
    case Free(h) => s.loop.Selecting? && h < |s.handlers| && s.handlers[h].phase.Freeing?
    case Delete => s.loop.Deleting?
    case Close(h) => h < |s.handlers| && s.handlers[h].phase.Leaving?
    case Message => s.loop.Selecting?
    case SendTo(h, _) => s.loop.Broadcasting? && h in s.loop.left
    case Report => s.loop.Reporting? && s.loop.to < |s.handlers| &&
                   (s.handlers[s.loop.to].closed || |s.handlers[s.loop.to].buffered| < 1)
    case AllSent => s.loop.Broadcasting? && s.loop.left == {}
  }

  function At(s: State, h: nat, phase: Phase): seq<Handler>
    requires h < |s.handlers|
  {
    s.handlers[h := s.handlers[h].(phase := phase)]
  }

  function Do(s: State, step: Step): State
    requires Enabled(s, step)
  {
    match step
    case Arrive => s.(handlers := s.handlers + [Handler(Requesting, [], false)])
    case Establish(h) =>
      if |s.sessions| >= MAX_SESSIONS then s.(handlers := At(s, h, Watching), loop := Reporting(h, TooMany, {}))
      else s.(handlers := At(s, h, Watching), sessions := s.sessions + {h})
    case TaskOrClientEnds(h) => s.(handlers := At(s, h, Freeing))
    case ReadErr(h) =>
      var x := s.handlers[h];
      s.(handlers := s.handlers[h := x.(buffered := x.buffered[1..],
                                        phase := if x.buffered[0].TooMany? then Leaving else Freeing)])
    case Free(h) => s.(handlers := At(s, h, Leaving), loop := Deleting(h))
    case Delete => s.(sessions := s.sessions - {s.loop.session}, loop := Selecting)
    case Close(h) =>
      s.(handlers := s.handlers[h := s.handlers[h].(phase := Gone, closed := true)],
         panicked := s.panicked || s.handlers[h].closed)
    case Message => s.(loop := Broadcasting(s.sessions))
    case SendTo(h, works) =>
      s.(loop := if works then Broadcasting(s.loop.left - {h}) else Reporting(h, SendFailed, s.loop.left - {h}))
    case Report =>
      var x := s.handlers[s.loop.to];
      s.(handlers := s.handlers[s.loop.to := x.(buffered := x.buffered + [s.loop.error])],
         loop := Broadcasting(s.loop.left), panicked := s.panicked || x.closed)
    case AllSent => s.(loop := Selecting)
  }

  ghost predicate Live(s: State, h: nat)
  {
    h < |s.handlers| && (s.handlers[h].phase.Watching? || s.handlers[h].phase.Freeing?)
  }

  /** A session belongs to a handler that still has its error channel open, or
      it is just being deleted. */
  ghost predicate SessionsLive(s: State)
  {
    && |s.sessions| <= MAX_SESSIONS
    && forall h :: h in s.sessions ==> Live(s, h) || s.loop == Deleting(h)
  }

  ghost predicate LoopKept(s: State)
  {
    match s.loop
    case Selecting => true
    case Broadcasting(left) => left <= s.sessions
    case Reporting(to, error, left) => left <= s.sessions && (error.SendFailed? ==> to in s.sessions) &&
                                       (error.TooMany? ==>
                                          to !in s.sessions && Live(s, to) && s.handlers[to].buffered == [])
    case Deleting(h) => h < |s.handlers| && (s.handlers[h].phase.Leaving? || s.handlers[h].phase.Gone?)
  }

  ghost predicate HandlerKept(x: Handler, established: bool)
  {
    && (x.closed <==> x.phase.Gone?)
    && (x.phase.Requesting? ==> x.buffered == [])
    && |x.buffered| <= 1
    && (TooMany in x.buffered ==> !established)
  }

  ghost predicate Inv(s: State)
  {
    && !s.panicked && SessionsLive(s) && LoopKept(s)
    && forall h :: 0 <= h < |s.handlers| ==> HandlerKept(s.handlers[h], h in s.sessions)
  }

  lemma StepKeepsSessions(s: State, step: Step)
    requires Inv(s) && Enabled(s, step)
    ensures SessionsLive(Do(s, step))
  {
    var s' := Do(s, step);
    forall h | h in s'.sessions ensures Live(s', h) || s'.loop == Deleting(h) {
      OneSessionLive(s, step, h);
    }
    hide Live;
    FewEnough(s, step);
  }

  lemma FewEnough(s: State, step: Step)
    requires SessionsLive(s) && Enabled(s, step)
    ensures |Do(s, step).sessions| <= MAX_SESSIONS
  {
    hide Live;
  }

  lemma OneSessionLive(s: State, step: Step, h: nat)
    requires Inv(s) && Enabled(s, step) && h in Do(s, step).sessions
    ensures Live(Do(s, step), h) || Do(s, step).loop == Deleting(h)
  {
    hide HandlerKept, LoopKept;
    match step {
      case ReadErr(g) => SessionNotRejected(s, g);
      case _ =>
    }
  }

  lemma SessionNotRejected(s: State, h: nat)
    requires Inv(s) && h < |s.handlers| && s.handlers[h].buffered != []
    ensures h in s.sessions ==> !s.handlers[h].buffered[0].TooMany?
  {
    var x := s.handlers[h];
    assert x.buffered[0] in x.buffered && HandlerKept(x, h in s.sessions);
  }

  lemma StepKeepsLoop(s: State, step: Step)
    requires Inv(s) && Enabled(s, step)
    ensures LoopKept(Do(s, step))
  {
  }

  ghost predicate HandlersKept(s: State)
  {
    !s.panicked && forall h :: 0 <= h < |s.handlers| ==> HandlerKept(s.handlers[h], h in s.sessions)
  }

  lemma StepKeepsHandlers(s: State, step: Step)
    requires Inv(s) && Enabled(s, step)
    ensures HandlersKept(Do(s, step))
  {
    hide HandlersKept;
    var s' := Do(s, step);
    forall h | 0 <= h < |s'.handlers| ensures HandlerKept(s'.handlers[h], h in s'.sessions) {
      OneHandler(s, step, h);
    }
    NoPanic(s, step);
    HandlersAre(s');
  }

  lemma OneHandler(s: State, step: Step, h: nat)
    requires Inv(s) && Enabled(s, step) && h < |Do(s, step).handlers|
    ensures HandlerKept(Do(s, step).handlers[h], h in Do(s, step).sessions)
  {
    if h < |s.handlers| {
      assert HandlerKept(s.handlers[h], h in s.sessions);
    }
  }

  lemma NoPanic(s: State, step: Step)
    requires Inv(s) && Enabled(s, step)
    ensures !Do(s, step).panicked
  {
  }

  lemma HandlersAre(s: State)
    requires !s.panicked && forall h :: 0 <= h < |s.handlers| ==> HandlerKept(s.handlers[h], h in s.sessions)
    ensures HandlersKept(s)
  {
  }

  /** No step sends on a closed error channel, lets in a 65th session, or leaves
      a session with a handler that is gone. */
  lemma StepKeepsInv(s: State, step: Step)
    requires Inv(s) && Enabled(s, step)
    ensures Inv(Do(s, step))
  {
    hide Do, Enabled, SessionsLive, LoopKept, HandlerKept;
    StepKeepsSessions(s, step);
    StepKeepsLoop(s, step);
    StepKeepsHandlers(s, step);
  }

  ghost predicate IsRun(states: seq<State>, steps: seq<Step>)
  {
    && |states| == |steps| + 1 && states[0] == Init()
    && forall k :: 0 <= k < |steps| ==> Enabled(states[k], steps[k]) && states[k + 1] == Do(states[k], steps[k])
  }

  lemma {:induction false} RunKeepsInv(states: seq<State>, steps: seq<Step>, k: nat)
    requires IsRun(states, steps) && k < |states|
    ensures Inv(states[k]) && !states[k].panicked && |states[k].sessions| <= 64
    decreases k
  {
    if k > 0 {
      RunKeepsInv(states, steps, k - 1);
      hide Do, Enabled, SessionsLive, LoopKept, HandlerKept;
      StepKeepsInv(states[k - 1], steps[k - 1]);
    }
  }

  /** A request is let in, with no error, while there are fewer than 64 sessions; the
      next one is told that there are too many, before its error channel holds
      anything, and then leaves without having a session to free. */
  lemma Admission(s: State, h: nat)
    requires Inv(s) && Enabled(s, Establish(h))
    ensures |s.sessions| <= 64
    ensures |s.sessions| < 64 ==>
              Do(s, Establish(h)).sessions == s.sessions + {h} && Do(s, Establish(h)).loop == Selecting
    ensures |s.sessions| == 64 ==>
              && h !in s.sessions && Do(s, Establish(h)).sessions == s.sessions
              && Reached(s, [Establish(h), Report, ReadErr(h)]).Some?
              && var t := Reached(s, [Establish(h), Report, ReadErr(h)]).value;
                 && t.sessions == s.sessions && t.handlers[..h] == s.handlers[..h]
                 && t.handlers[h] == Handler(Leaving, [], false)
  {
    assert HandlerKept(s.handlers[h], h in s.sessions);
    if |s.sessions| == 64 {
      RejectedLeaves(s, h);
    }
  }

  lemma RejectedLeaves(s: State, h: nat)
    requires Inv(s) && Enabled(s, Establish(h)) && |s.sessions| == 64
    ensures h !in s.sessions && Do(s, Establish(h)).sessions == s.sessions
    ensures Reached(s, [Establish(h), Report, ReadErr(h)]).Some?
    ensures var t := Reached(s, [Establish(h), Report, ReadErr(h)]).value;
            && t.sessions == s.sessions && |t.handlers| == |s.handlers| && t.handlers[..h] == s.handlers[..h]
            && t.handlers[h] == Handler(Leaving, [], false)
  {
    assert HandlerKept(s.handlers[h], h in s.sessions);
    assert h in s.sessions ==> Live(s, h) || s.loop == Deleting(h);
    OneMore(s, [], s, Establish(h));
    var t := Do(s, Establish(h));
    OneMore(s, [] + [Establish(h)], t, Report);
    var u := Do(t, Report);
    OneMore(s, [] + [Establish(h)] + [Report], u, ReadErr(h));
    assert [] + [Establish(h)] + [Report] + [ReadErr(h)] == [Establish(h), Report, ReadErr(h)];
    assert u.handlers[h].buffered == [TooMany] && [TooMany][1..] == [];
    assert Do(u, ReadErr(h)).handlers == s.handlers[h := Handler(Leaving, [], false)];
  }

  /** Whenever the loop is about to send on an error channel, it is open; and
      outside the deletion that follows a request to free it, every session's is. */
  lemma ErrorChannelsOpen(s: State)
    requires Inv(s)
    ensures s.loop.Reporting? ==> s.loop.to < |s.handlers| && !s.handlers[s.loop.to].closed
    ensures forall h :: h in s.sessions && s.loop != Deleting(h) ==> h < |s.handlers| && !s.handlers[h].closed
  {
  }

  // ----- what a state can come to -----

  /** The state that the steps lead to from `s`, if all of them are possible. */
  function Reached(s: State, steps: seq<Step>): Option<State>
  {
    if steps == [] then Some(s)
    else
      var before := Reached(s, steps[..|steps| - 1]);
      var step := steps[|steps| - 1];
      if before.Some? && Enabled(before.value, step) then Some(Do(before.value, step)) else None
  }

  lemma OneMore(s: State, steps: seq<Step>, t: State, step: Step)
    requires Reached(s, steps) == Some(t) && Enabled(t, step)
    ensures Reached(s, steps + [step]) == Some(Do(t, step))
  {
    assert (steps + [step])[..|steps|] == steps;
  }

  // ----- what a message comes to -----

  /** How often one of the steps is a send to the session. */
  function Sends(steps: seq<Step>, h: nat): nat
  {
    if steps == [] then 0
    else
      var step := steps[|steps| - 1];
      Sends(steps[..|steps| - 1], h) + if step.SendTo? && step.h == h then 1 else 0
  }

  lemma BroadcastStep(s: State, step: Step)
    requires Enabled(s, step) && (s.loop.Broadcasting? || s.loop.Reporting?) && step != AllSent
    ensures var t := Do(s, step);
            && (t.loop.Broadcasting? || t.loop.Reporting?) && t.sessions == s.sessions
            && t.loop.left == (if step.SendTo? then s.loop.left - {step.h} else s.loop.left)
    ensures step.SendTo? ==> step.h in s.loop.left
  {
  }

  /** From taking a message on until all is sent, whatever else happens meanwhile, the
      loop stays at it, sessions stay the same, and it sends to each of them once,
      whether the sends work or not. */
  lemma {:induction false} MessageReachesEach(s: State, steps: seq<Step>)
    requires Enabled(s, Message) && Reached(Do(s, Message), steps).Some? && AllSent !in steps
    ensures var t := Reached(Do(s, Message), steps).value;
            && (t.loop.Broadcasting? || t.loop.Reporting?) && t.loop.left <= s.sessions && t.sessions == s.sessions
            && (forall h :: Sends(steps, h) == if h in s.sessions && h !in t.loop.left then 1 else 0)
            && (Enabled(t, AllSent) ==> forall h :: Sends(steps, h) == if h in s.sessions then 1 else 0)
    decreases |steps|
  {
    if steps != [] {
      var last := |steps| - 1;
      assert forall step :: step in steps[..last] ==> step in steps;
      MessageReachesEach(s, steps[..last]);
      hide Do, Sends;
      var before := Reached(Do(s, Message), steps[..last]).value;
      BroadcastStep(before, steps[last]);
      forall h
        ensures Sends(steps, h) ==
                Sends(steps[..last], h) + if steps[last].SendTo? && steps[last].h == h then 1 else 0
      {
        SendsLast(steps, h);
      }
    }
  }

  lemma SendsLast(steps: seq<Step>, h: nat)
    requires steps != []
    ensures var last := |steps| - 1;
            Sends(steps, h) == Sends(steps[..last], h) + if steps[last].SendTo? && steps[last].h == h then 1 else 0
  {
  }

  /** The steps that the loop takes part in. */
  predicate OfLoop(step: Step)
  {
    step.Establish? || step.Free? || step.Delete? || step.Message? || step.SendTo? || step.Report? || step.AllSent?
  }

  /** The loop is about to send an error on a channel that is full, to a handler
      that reads no more. */
  predicate Jammed(s: State)
  {
    && s.loop.Reporting? && s.loop.to < |s.handlers|
    && s.handlers[s.loop.to].buffered != [] && s.handlers[s.loop.to].phase.Freeing?
  }

  /** `h` waits for the loop: to be let in, or to have its session freed. */
  predicate WaitsForLoop(s: State, h: nat)
  {
    h < |s.handlers| && (s.handlers[h].phase.Requesting? || s.handlers[h].phase.Freeing?)
  }

  lemma StepStaysJammed(s: State, step: Step)
    requires Inv(s) && Jammed(s) && Enabled(s, step)
    ensures Jammed(Do(s, step)) && Do(s, step).loop == s.loop && Do(s, step).sessions == s.sessions && !OfLoop(step)
    ensures forall h :: WaitsForLoop(s, h) ==> WaitsForLoop(Do(s, step), h)
  {
    assert HandlerKept(s.handlers[s.loop.to], s.loop.to in s.sessions);
  }

  /** Once the loop is jammed it takes no step in any run: it stays where it is,
      no session is freed, and whoever waits for it waits for ever. */
  lemma {:induction false} JammedForEver(s: State, steps: seq<Step>)
    requires Inv(s) && Jammed(s) && Reached(s, steps).Some?
    ensures var t := Reached(s, steps).value; Inv(t) && Jammed(t) && t.loop == s.loop && t.sessions == s.sessions
    ensures forall h :: WaitsForLoop(s, h) ==> WaitsForLoop(Reached(s, steps).value, h)
    ensures forall step :: step in steps ==> !OfLoop(step)
    decreases |steps|
  {
    if steps != [] {
      var last := |steps| - 1;
      JammedForEver(s, steps[..last]);
      hide Inv, Jammed, Enabled, Do, OfLoop, WaitsForLoop;
      var before := Reached(s, steps[..last]).value;
      StepStaysJammed(before, steps[last]);
      StepKeepsInv(before, steps[last]);
      assert steps == steps[..last] + [steps[last]];
    }
  }

  /** Otherwise a step of the loop is possible, or is once its handler has read. */
  lemma LoopCanStep(s: State) returns (steps: seq<Step>)
    requires Inv(s) && !Jammed(s)
    ensures Reached(s, steps).Some? && 1 <= |steps| <= 2 && OfLoop(steps[|steps| - 1])
  {
    hide Inv, Do, Reached;
    match s.loop {
      case Selecting => steps := [Message];
      case Broadcasting(left) =>
        if h :| h in left {
          steps := [SendTo(h, true)];
        } else {
          steps := [AllSent];
        }
      case Deleting(_) => steps := [Delete];
      case Reporting(to, _, _) =>
        ReportsToHandler(s);
        if s.handlers[to].buffered == [] {
          steps := [Report];
        } else {
          ReaderFreesLoop(s);
          return [ReadErr(to), Report];
        }
    }
    NoneTaken(s);
    OneMore(s, [], s, steps[0]);
    assert [] + [steps[0]] == steps;
  }

  lemma NoneTaken(s: State)
    ensures Reached(s, []) == Some(s)
  {
  }

  lemma ReportsToHandler(s: State)
    requires Inv(s) && s.loop.Reporting?
    ensures s.loop.to < |s.handlers|
  {
    hide HandlerKept;
  }

  lemma ReaderFreesLoop(s: State)
    requires Inv(s) && !Jammed(s) && s.loop.Reporting? && s.loop.to < |s.handlers|
    requires s.handlers[s.loop.to].buffered != []
    ensures Reached(s, [ReadErr(s.loop.to), Report]).Some?
  {
    var to := s.loop.to;
    assert HandlerKept(s.handlers[to], to in s.sessions);
    OneMore(s, [], s, ReadErr(to));
    var t := Do(s, ReadErr(to));
    OneMore(s, [] + [ReadErr(to)], t, Report);
    assert [] + [ReadErr(to)] + [Report] == [ReadErr(to), Report];
  }

  /** A run from `s` in which the loop takes a step. */
  ghost predicate LoopMoves(s: State, steps: seq<Step>)
  {
    Reached(s, steps).Some? && exists step :: step in steps && OfLoop(step)
  }

  /** The loop can never move again if and only if it is jammed. */
  lemma StuckIffJammed(s: State)
    requires Inv(s)
    ensures Jammed(s) <==> forall steps :: !LoopMoves(s, steps)
  {
    hide Inv, Jammed, Reached, OfLoop;
    if Jammed(s) {
      forall steps ensures !LoopMoves(s, steps) {
        if Reached(s, steps).Some? {
          JammedForEver(s, steps);
        }
      }
    } else {
      var steps := LoopCanStep(s);
      assert steps[|steps| - 1] in steps;
      assert LoopMoves(s, steps);
    }
  }

  /** A session's error channel is closed exactly if its handler is gone between
      the loop's taking the request to free it and the deletion. */
  lemma ClosedSession(s: State, h: nat)
    requires Inv(s) && h in s.sessions
    ensures h < |s.handlers|
    ensures s.handlers[h].closed <==> s.loop == Deleting(h) && s.handlers[h].phase.Gone?
  {
    assert Live(s, h) || s.loop == Deleting(h);
    assert HandlerKept(s.handlers[h], true);
  }

  function OneSession(phase: Phase, buffered: seq<MonError>, loop: Loop): State
  {
    State([Handler(phase, buffered, false)], {0}, loop, false)
  }

  lemma OnlyHandler(phase: Phase, buffered: seq<MonError>, phase': Phase, buffered': seq<MonError>)
    ensures [Handler(phase, buffered, false)][0 := Handler(phase', buffered', false)] ==
              [Handler(phase', buffered', false)]
  {
  }

  /** A message whose send to the only session fails, while its channel is empty. */
  lemma FailedSend(steps: seq<Step>, phase: Phase) returns (r: seq<Step>)
    requires Reached(Init(), steps) == Some(OneSession(phase, [], Selecting))
    ensures Reached(Init(), r) == Some(OneSession(phase, [SendFailed], Selecting))
  {
    hide Reached;
    r := FailingSend(steps, phase, []);
    OneMore(Init(), r, OneSession(phase, [], Reporting(0, SendFailed, {})), Report);
    OnlyHandler(phase, [], phase, [SendFailed]);
    assert [] + [SendFailed] == [SendFailed];
    r := r + [Report];
    OneMore(Init(), r, OneSession(phase, [SendFailed], Broadcasting({})), AllSent);
    r := r + [AllSent];
  }

  lemma FailingSend(steps: seq<Step>, phase: Phase, buffered: seq<MonError>) returns (r: seq<Step>)
    requires Reached(Init(), steps) == Some(OneSession(phase, buffered, Selecting))
    ensures Reached(Init(), r) == Some(OneSession(phase, buffered, Reporting(0, SendFailed, {})))
  {
    hide Reached;
    OneMore(Init(), steps, OneSession(phase, buffered, Selecting), Message);
    r := steps + [Message];
    OneMore(Init(), r, OneSession(phase, buffered, Broadcasting({0})), SendTo(0, false));
    r := r + [SendTo(0, false)];
    assert {0} - {0} == {};
  }

  lemma Begin() returns (steps: seq<Step>)
    ensures Reached(Init(), steps) == Some(OneSession(Watching, [], Selecting))
  {
    OneMore(Init(), [], Init(), Arrive);
    assert [] + [Handler(Requesting, [], false)] == [Handler(Requesting, [], false)];
    steps := [] + [Arrive];
    OneMore(Init(), steps, State([Handler(Requesting, [], false)], {}, Selecting, false), Establish(0));
    steps := steps + [Establish(0)];
    OnlyHandler(Requesting, [], Watching, []);
    assert {} + {0} == {0};
  }

  /** A session whose handler has closed its error channel before the deletion. */
  lemma CanCloseFirst() returns (steps: seq<Step>)
    ensures Reached(Init(), steps) == Some(State([Handler(Gone, [], true)], {0}, Deleting(0), false))
  {
    hide Reached;
    steps := Begin();
    OneMore(Init(), steps, OneSession(Watching, [], Selecting), TaskOrClientEnds(0));
    OnlyHandler(Watching, [], Freeing, []);
    steps := steps + [TaskOrClientEnds(0)];
    OneMore(Init(), steps, OneSession(Freeing, [], Selecting), Free(0));
    OnlyHandler(Freeing, [], Leaving, []);
    steps := steps + [Free(0)];
    OneMore(Init(), steps, OneSession(Leaving, [], Deleting(0)), Close(0));
    assert [Handler(Leaving, [], false)][0 := Handler(Gone, [], true)] == [Handler(Gone, [], true)];
    steps := steps + [Close(0)];
  }

  /** The monitor can lock up. A session's channel holds one unread error when
      another send to it fails: the loop waits for room in the channel, while the
      handler, which reads no more, waits for the loop to free its session. */
  lemma CanLockUp() returns (steps: seq<Step>)
    ensures Reached(Init(), steps).Some?
    ensures var s := Reached(Init(), steps).value;
            && s == OneSession(Freeing, [SendFailed], Reporting(0, SendFailed, {})) && Jammed(s)
            && forall step :: Enabled(s, step) ==> step.Arrive?
  {
    hide Reached;
    steps := Begin();
    steps := FailedSend(steps, Watching);
    OneMore(Init(), steps, OneSession(Watching, [SendFailed], Selecting), ReadErr(0));
    steps := steps + [ReadErr(0)];
    OnlyHandler(Watching, [SendFailed], Freeing, []);
    assert [SendFailed][1..] == [];
    steps := FailedSend(steps, Freeing);
    steps := FailingSend(steps, Freeing, [SendFailed]);
  }
}
