/** The transaction as a token: it is passed through a channel of capacity one
    between the goroutines of an indexing run. Once the pipeline is back, its
    caller takes the token, rolls back and closes the channel. */
module Token {

  /** Where a goroutine is: between uses of the transaction, holding it (or the
      nil that a closed channel gives), about to give it back, or finished. */
  datatype Place = Outside | Holding(valid: bool) | GivingBack | Finished

  datatype State = State(places: seq<Place>, tokens: nat, callerHolds: bool, closed: bool, panicked: bool)

  datatype Step =
    | Take(g: nat)
    | Use(g: nat)
    | GiveBack(g: nat)
    | Finish(g: nat)
    | CallerTakes
    | CallerCloses

  ghost predicate Init(s: State)
  {
    (forall g :: 0 <= g < |s.places| ==> s.places[g].Outside?) && s == State(s.places, 1, false, false, false)
  }

  predicate Enabled(s: State, step: Step)
  {
    match step
    case Take(g) => g < |s.places| && s.places[g].Outside? && (s.tokens > 0 || s.closed)
    case Use(g) => g < |s.places| && s.places[g].Holding?
    case GiveBack(g) => g < |s.places| && s.places[g].GivingBack? && (s.tokens < 1 || s.closed)
    case Finish(g) => g < |s.places| && s.places[g].Outside?
    case CallerTakes => !s.callerHolds && !s.closed && s.tokens > 0
    case CallerCloses => s.callerHolds && !s.closed
  }

  function Do(s: State, step: Step): State
    requires Enabled(s, step)
  {
    match step
    case Take(g) =>
      s.(places := s.places[g := Holding(s.tokens > 0)], tokens := if s.tokens > 0 then s.tokens - 1 else 0)
    case Use(g) => s.(places := s.places[g := GivingBack], panicked := s.panicked || !s.places[g].valid)
    case GiveBack(g) => s.(places := s.places[g := Outside], tokens := s.tokens + 1, panicked := s.panicked || s.closed)
    case Finish(g) => s.(places := s.places[g := Finished])
    case CallerTakes => s.(tokens := s.tokens - 1, callerHolds := true)
    case CallerCloses => s.(closed := true)
  }

  function Has(p: Place): nat
  {
    if p.Holding? || p.GivingBack? then 1 else 0
  }

  function Holders(places: seq<Place>): nat
  {
    if places == [] then 0 else Holders(places[..|places| - 1]) + Has(places[|places| - 1])
  }

  lemma {:induction false} HoldersUpdate(places: seq<Place>, g: nat, p: Place)
    requires g < |places|
    ensures Holders(places[g := p]) + Has(places[g]) == Holders(places) + Has(p)
    decreases |places|
  {
    var n := |places| - 1;
    if g == n {
      assert places[g := p][..n] == places[..n];
    } else {
      assert places[g := p][..n] == places[..n][g := p];
      HoldersUpdate(places[..n], g, p);
    }
  }

  lemma {:induction false} HoldersAtLeast(places: seq<Place>, g: nat)
    requires g < |places|
    ensures Has(places[g]) <= Holders(places)
    ensures forall k :: 0 <= k < |places| && k != g ==> Has(places[g]) + Has(places[k]) <= Holders(places)
    decreases |places|
  {
    var n := |places| - 1;
    forall k | 0 <= k < |places| && k != g ensures Has(places[g]) + Has(places[k]) <= Holders(places) {
      if g < n && k < n {
        HoldersAtLeast(places[..n], g);
        assert places[..n][g] == places[g] && places[..n][k] == places[k];
      } else if g < n {
        HoldersAtLeast(places[..n], g);
        assert places[..n][g] == places[g];
      } else {
        HoldersAtLeast(places[..n], k);
        assert places[..n][k] == places[k];
      }
    }
    if g < n {
      HoldersAtLeast(places[..n], g);
      assert places[..n][g] == places[g];
    }
  }

  /** Until the channel is closed there is one token, in the channel, with one
      goroutine, or with the caller; and nothing has gone wrong. */
  ghost predicate Inv(s: State)
  {
    !s.closed ==>
      && !s.panicked && s.tokens + Holders(s.places) + (if s.callerHolds then 1 else 0) == 1
      && forall g :: 0 <= g < |s.places| && s.places[g].Holding? ==> s.places[g].valid
  }

  lemma {:induction false} NoneHolds(places: seq<Place>)
    requires forall g :: 0 <= g < |places| ==> places[g].Outside? || places[g].Finished?
    ensures Holders(places) == 0
    decreases |places|
  {
    if places != [] {
      NoneHolds(places[..|places| - 1]);
    }
  }

  lemma StepKeepsInv(s: State, step: Step)
    requires Inv(s) && Enabled(s, step)
    ensures Inv(Do(s, step))
  {
    hide Holders;
    if !s.closed {
      var s' := Do(s, step);
      match step {
        case Take(g) => HoldersUpdate(s.places, g, s'.places[g]);
        case Use(g) => HoldersUpdate(s.places, g, s'.places[g]);
        case GiveBack(g) => HoldersUpdate(s.places, g, s'.places[g]);
        case Finish(g) => HoldersUpdate(s.places, g, s'.places[g]);
        case _ =>
      }
    }
  }

  ghost predicate IsRun(states: seq<State>, steps: seq<Step>)
  {
    && |states| == |steps| + 1 && Init(states[0])
    && forall k :: 0 <= k < |steps| ==> Enabled(states[k], steps[k]) && states[k + 1] == Do(states[k], steps[k])
  }

  lemma {:induction false} RunKeepsInv(states: seq<State>, steps: seq<Step>, k: nat)
    requires IsRun(states, steps) && k < |states|
    ensures Inv(states[k])
    decreases k
  {
    if k == 0 {
      NoneHolds(states[0].places);
    } else {
      RunKeepsInv(states, steps, k - 1);
      hide Inv, Do, Enabled;
      StepKeepsInv(states[k - 1], steps[k - 1]);
    }
  }

  /** Before the channel is closed, at most one goroutine has the transaction,
      and giving it back never blocks. */
  lemma OneHolder(s: State, f: nat, g: nat)
    requires Inv(s) && !s.closed && f < |s.places| && g < |s.places|
    requires Has(s.places[f]) == 1 && Has(s.places[g]) == 1
    ensures f == g && !s.callerHolds && s.tokens == 0
    ensures s.places[f].GivingBack? ==> Enabled(s, GiveBack(f))
  {
    hide Holders, Inv;
    HoldersAtLeast(s.places, f);
    TokenCount(s);
  }

  lemma TokenCount(s: State)
    requires Inv(s) && !s.closed
    ensures s.tokens + Holders(s.places) + (if s.callerHolds then 1 else 0) == 1
  {
  }

  /** When the caller closes the channel, the run can end well whatever happens
      next exactly if every goroutine has finished by then. The pipeline sees to
      that unless a result failed; after a failed result a worker may still be
      about to look up its object. */
  lemma SafeToClose(s: State)
    requires Inv(s) && Enabled(s, CallerCloses)
    ensures (forall g :: 0 <= g < |s.places| ==> s.places[g].Finished?) <==>
              forall g :: !LatePanic(Do(s, CallerCloses), g)
    ensures (forall g :: 0 <= g < |s.places| ==> s.places[g].Finished?) ==>
              forall step :: !Enabled(Do(s, CallerCloses), step)
  {
    hide Holders;
    TokenCount(s);
    forall g | 0 <= g < |s.places| ensures s.places[g].Outside? || s.places[g].Finished? {
      HoldersAtLeast(s.places, g);
    }
    if g :| 0 <= g < |s.places| && !s.places[g].Finished? {
      assert LatePanic(Do(s, CallerCloses), g);
    }
  }

  /** Goroutine `g` takes nil from the closed channel and uses it. */
  ghost predicate LatePanic(s: State, g: nat)
  {
    Enabled(s, Take(g)) && Enabled(Do(s, Take(g)), Use(g)) && Do(Do(s, Take(g)), Use(g)).panicked
  }
}
