/** The bound MaxConns: the exact conditions under which the counter open, and the connections that
    are really live, stay within it. */
module PoolBounds {
  import opened Pool

  // The one step that raises open without looking at MaxConns.
  predicate Lands(s: State, a: Step) { a.ReplaceOk? && !s.closed }

  lemma OpenStep(s: State, a: Step)
    requires Enabled(s, a)
    ensures Next(s, a).max == s.max
    ensures Lands(s, a) ==> Next(s, a).open == s.open + 1
    ensures !Lands(s, a) && s.open <= s.max ==> Next(s, a).open <= s.max
  {
    if a.Evict? { KeptNothing(s.idle, a.stale, s.minIdle); }
  }

  /** The pool keeps open <= MaxConns in a run exactly when MinIdle fits and every replacement
      connection lands while a slot is free. */
  lemma OpenBoundExact(states: seq<State>, steps: seq<Step>)
    requires Run(states, steps)
    ensures (forall i :: 0 <= i < |states| ==> states[i].open <= states[0].max) <==>
            (states[0].open <= states[0].max &&
             (forall i :: 0 <= i < |steps| && Lands(states[i], steps[i]) ==> states[i].open < states[0].max))
  {
    hide Next;
    MaxFixed(states, steps);
    if states[0].open <= states[0].max && forall i :: 0 <= i < |steps| && Lands(states[i], steps[i]) ==> states[i].open < states[0].max {
      forall i | 0 <= i < |states| ensures states[i].open <= states[0].max {
        BoundKept(states, steps, i);
      }
    } else if states[0].open <= states[0].max {
      var i :| 0 <= i < |steps| && Lands(states[i], steps[i]) && states[i].open >= states[0].max;
      OpenStep(states[i], steps[i]);
      assert states[i + 1].open > states[0].max;
    }
  }

  // The steps that start a connection: a dial by Acquire, or a replacement that lands.
  predicate Raises(s: State, a: Step)
  {
    (a.Enter? && !s.closed && !s.draining && s.idle == [] && s.open < s.max) || Lands(s, a)
  }

  lemma LiveStep(s: State, a: Step)
    requires Enabled(s, a)
    ensures s.closed ==> Next(s, a).closed
    ensures Raises(s, a) ==> !s.closed && !Next(s, a).closed && Next(s, a).open + Next(s, a).failed == s.open + s.failed + 1
    ensures !Raises(s, a) && !Next(s, a).closed ==> Next(s, a).open + Next(s, a).failed <= s.open + s.failed
  {
    if a.Evict? { KeptNothing(s.idle, a.stale, s.minIdle); }
    hide Kept, Without, Deliver;
  }

  /** Before Close, live connections stay within MaxConns in a run exactly when MinIdle fits and
      every connection is started while open plus the failed replacement dials is below it. */
  lemma LiveBoundExact(states: seq<State>, steps: seq<Step>)
    requires Run(states, steps)
    ensures (forall i :: 0 <= i < |states| && !states[i].closed ==> Live(states[i]) <= states[0].max) <==>
            (states[0].open <= states[0].max &&
             (forall i :: 0 <= i < |steps| && Raises(states[i], steps[i]) ==> states[i].open + states[i].failed < states[0].max))
  {
    hide Next, Live;
    FreshStart(states, steps);
    OpenCountsLive(states, steps, 0);
    if states[0].open <= states[0].max &&
       forall i :: 0 <= i < |steps| && Raises(states[i], steps[i]) ==> states[i].open + states[i].failed < states[0].max {
      forall i | 0 <= i < |states| && !states[i].closed ensures Live(states[i]) <= states[0].max {
        LiveKept(states, steps, i);
        OpenCountsLive(states, steps, i);
      }
    } else if states[0].open <= states[0].max {
      var i :| 0 <= i < |steps| && Raises(states[i], steps[i]) && states[i].open + states[i].failed >= states[0].max;
      LiveStep(states[i], steps[i]);
      OpenCountsLive(states, steps, i + 1);
      assert Live(states[i + 1]) > states[0].max;
    }
  }

  lemma FreshStart(states: seq<State>, steps: seq<Step>)
    requires Run(states, steps)
    ensures !states[0].closed && states[0].failed == 0 && states[0].tasks == [] && !states[0].draining
  {
    hide Next, Enabled;
  }

  lemma {:induction false} LiveKept(states: seq<State>, steps: seq<Step>, i: nat)
    requires Run(states, steps) && i < |states| && states[0].open <= states[0].max
    requires forall k :: 0 <= k < |steps| && Raises(states[k], steps[k]) ==> states[k].open + states[k].failed < states[0].max
    ensures !states[i].closed ==> states[i].open + states[i].failed <= states[0].max
  {
    hide Next, Raises;
    FreshStart(states, steps);
    if i > 0 {
      LiveKept(states, steps, i - 1);
      LiveStep(states[i - 1], steps[i - 1]);
    }
  }

  lemma MaxFixed(states: seq<State>, steps: seq<Step>)
    requires Run(states, steps)
    ensures forall i :: 0 <= i < |states| ==> states[i].max == states[0].max
  {
    hide Next;
    for i := 0 to |steps|
      invariant forall j :: 0 <= j <= i ==> states[j].max == states[0].max
    {
      OpenStep(states[i], steps[i]);
    }
  }

  lemma {:induction false} BoundKept(states: seq<State>, steps: seq<Step>, i: nat)
    requires Run(states, steps) && i < |states| && states[0].open <= states[0].max
    requires forall k :: 0 <= k < |states| ==> states[k].max == states[0].max
    requires forall k :: 0 <= k < |steps| && Lands(states[k], steps[k]) ==> states[k].open < states[0].max
    ensures states[i].open <= states[0].max
  {
    hide Next;
    if i > 0 {
      BoundKept(states, steps, i - 1);
      OpenStep(states[i - 1], steps[i - 1]);
    }
  }

  ghost predicate NobodyReplacing(s: State) { forall t :: 0 <= t < |s.tasks| ==> !s.tasks[t].Replacing? }

  lemma NoReplacement(s: State, a: Step)
    requires Enabled(s, a) && NobodyReplacing(s) && (a.Discard? ==> s.waiters == [])
    ensures NobodyReplacing(Next(s, a))
  {
    hide Kept, Without;
    if Local(a) {
      LocalStep(s, a);
      hide Next;
    }
  }

  /** In a run where discard never finds a waiter, and MinIdle fits, the bound holds throughout. */
  lemma {:induction false} BoundWithoutReplacement(states: seq<State>, steps: seq<Step>, i: nat)
    requires Run(states, steps) && i < |states| && states[0].open <= states[0].max
    requires forall k :: 0 <= k < |steps| && steps[k].Discard? ==> states[k].waiters == []
    ensures NobodyReplacing(states[i]) && states[i].open <= states[i].max == states[0].max
  {
    hide Next;
    if i > 0 {
      BoundWithoutReplacement(states, steps, i - 1);
      NoReplacement(states[i - 1], steps[i - 1]);
      OpenStep(states[i - 1], steps[i - 1]);
    }
  }
}
