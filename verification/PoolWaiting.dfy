/** Waiting for the pool to fall idle: when Drain's return means that it has, and when a Drain or
    WaitIdle asleep on idleCond is woken. */
module PoolWaiting {
  import opened Bytes
  import opened Pool
  import opened PoolBounds
  import opened PoolLimits

  lemma {:induction false} TotalCovers(f: Task -> nat, tasks: seq<Task>, t: nat)
    requires t < |tasks|
    ensures f(tasks[t]) <= Total(f, tasks)
  {
    if t < |tasks| - 1 { TotalCovers(f, tasks[..|tasks| - 1], t); }
  }

  // ---- What every Drain in progress shows ----

  predicate DrainTask(x: Task)
  {
    x.Clearing? || (x.Notifying? && x.drain) || (x.Awaiting? && x.drain) || (x.Parked? && x.drain) || (x.Returned? && x.drain)
  }

  // A Drain under way has set draining; nobody has seen a broadcast that is still to come.
  ghost predicate PhasesOk(s: State)
  {
    forall t :: 0 <= t < |s.tasks| ==>
      (DrainTask(s.tasks[t]) ==> s.draining) && (s.tasks[t].Parked? ==> s.tasks[t].since <= s.epoch)
  }

  // What a step makes of the tasks: the others stay, and the one it moves or starts is neither
  // asleep, unless it is just going to sleep, nor a Drain where there was none.
  ghost predicate Stepped(s: State, a: Step, v: State)
  {
    && |v.tasks| >= |s.tasks| && v.epoch >= s.epoch && (s.draining ==> v.draining)
    && forall t :: 0 <= t < |v.tasks| && (t < |s.tasks| ==> v.tasks[t] != s.tasks[t]) ==>
         && (DrainTask(v.tasks[t]) ==> v.draining || (t < |s.tasks| && DrainTask(s.tasks[t])))
         && (v.tasks[t].Parked? ==> a == Check(t) && v.tasks[t].since == s.epoch == v.epoch && KeepsWaiting(s, v.tasks[t].drain))
  }

  lemma SteppedLocal(s: State, a: Step)
    requires Enabled(s, a) && Local(a)
    ensures Stepped(s, a, Next(s, a))
  {
    LocalStep(s, a);
    LocalClock(s, a);
    MovedKind(s, a);
    hide Next, Moved, Enabled;
  }

  lemma LocalClock(s: State, a: Step)
    requires Enabled(s, a) && Local(a)
    ensures Next(s, a).draining == s.draining && Next(s, a).epoch >= s.epoch && (a.Check? ==> Next(s, a).epoch == s.epoch)
  {
  }

  lemma MovedKind(s: State, a: Step)
    requires Enabled(s, a) && Local(a)
    ensures DrainTask(Moved(s, a)) ==> DrainTask(s.tasks[a.t])
    ensures Moved(s, a).Parked? ==> a.Check? && Moved(s, a).since == s.epoch && KeepsWaiting(s, Moved(s, a).drain)
  {
  }

  lemma SteppedMoving(s: State, a: Step)
    requires Enabled(s, a) && Moving(a)
    ensures Stepped(s, a, Next(s, a))
  {
    hide Without;
  }

  lemma SteppedSpawning(s: State, a: Step)
    requires Enabled(s, a) && !Local(a) && !Moving(a)
    ensures Stepped(s, a, Next(s, a))
  {
    hide Kept;
  }

  lemma SteppedAny(s: State, a: Step)
    requires Enabled(s, a)
    ensures Stepped(s, a, Next(s, a))
  {
    hide Stepped, Next, Enabled;
    if Local(a) {
      SteppedLocal(s, a);
    } else if Moving(a) {
      SteppedMoving(s, a);
    } else {
      SteppedSpawning(s, a);
    }
  }

  lemma PhasesKept(s: State, a: Step)
    requires PhasesOk(s) && Enabled(s, a)
    ensures PhasesOk(Next(s, a))
  {
    SteppedAny(s, a);
    hide Next, Enabled;
    var v := Next(s, a);
    forall t | 0 <= t < |v.tasks|
      ensures (DrainTask(v.tasks[t]) ==> v.draining) && (v.tasks[t].Parked? ==> v.tasks[t].since <= v.epoch) {
      if t < |s.tasks| { assert s.tasks[t].Parked? ==> s.tasks[t].since <= s.epoch; }
    }
  }

  lemma {:induction false} RunKeepsPhases(states: seq<State>, steps: seq<Step>, i: nat)
    requires Run(states, steps) && i < |states|
    ensures PhasesOk(states[i])
  {
    hide Next;
    FreshStart(states, steps);
    if i > 0 {
      RunKeepsPhases(states, steps, i - 1);
      PhasesKept(states[i - 1], steps[i - 1]);
    }
  }

  // ---- Drain's return ----

  // A connection on its way to somebody who will take it.
  predicate InTransit(s: State, x: Task)
  {
    match x
    case Received(_) => true
    case Waiter(cancelled, Some(Some(_))) => !cancelled
    case Sending(ch, Some(_), _) => Listening(s.tasks, ch)
    case Replacing(ch) => !s.closed && Listening(s.tasks, ch)
    case _ => false
  }

  /** When a Drain returns, the pool stays without handles in every continuation exactly when no
      connection was in transit at that moment. */
  lemma DrainReturnIsFinal(states: seq<State>, steps: seq<Step>, i: nat, t: nat)
    requires Run(states, steps) && i < |steps| && steps[i] == Check(t) && states[i + 1].tasks[t] == Returned(true)
    ensures var s := states[i + 1];
            (forall u :: 0 <= u < |s.tasks| ==> !InTransit(s, s.tasks[u])) <==>
            (forall more :: Play(s, more).Some? ==> !HandleOut(Play(s, more).value))
  {
    var s := states[i + 1];
    assert states[i].inUse <= 0 && s.inUse == states[i].inUse;
    RunKeepsInv(states, steps, i + 1);
    RunKeepsPhases(states, steps, i + 1);
    hide Next, Enabled, Play, HandleOut, Run;
    assert DrainTask(s.tasks[t]);
    forall u | 0 <= u < |s.tasks| ensures Surfaces(s, s.tasks[u]) <==> InTransit(s, s.tasks[u]) {
      TotalCovers(InHand, s.tasks, u);
    }
    StoppedForGood(s);
  }

  /** And it may be in transit: here Drain returns while a released connection is on its way to a
      waiter that has not been told to stop. */
  lemma DrainReturnsEarly() returns (states: seq<State>, steps: seq<Step>)
    ensures Run(states, steps) && |steps| > 0 && steps[|steps| - 1] == Check(2) && states[|steps|].tasks[2] == Returned(true)
    ensures InTransit(states[|steps|], states[|steps|].tasks[0]) && !Quiet(states[|steps|])
  {
    hide *;
    ReachClearing();
    ReachReturned();
    ReturnedIs();
    StartIsRun();
    var mid, last := [Enter, DialOk(0)] + [Enter] + [Release(0), Drain], [Clear(2), Await(2)] + [Check(2)];
    PlayConcat(ONE, mid, last);
    steps := mid + last;
    states := PlayIsRun([ONE], [], steps);
    assert [] + steps == steps;
    RunLength(states, steps);
  }

  lemma ReturnedIs()
    ensures var s := DrainReturned();
            |s.tasks| == 3 && s.tasks[2] == Returned(true) && InTransit(s, s.tasks[0]) && !Quiet(s)
  {
    assert Surfaces(DrainReturned(), DrainReturned().tasks[0]);
  }

  function DrainReturned(): State
  {
    State(1, 0, [], 1, 0, false, true, [], [Sending(1, Some(0), false), Waiter(false, None), Returned(true)], 1, 0, 1)
  }

  lemma ReachReturned()
    ensures Play(DrainClearing(), [Clear(2), Await(2)] + [Check(2)]) == Some(DrainReturned())
  {
    DrainWaits(DrainClearing(), 2);
    assert DrainClearing().tasks[2 := Returned(true)] == DrainReturned().tasks;
    hide Play;
  }

  // What follows Drain's first section when there was nothing to close and nobody to notify.
  lemma DrainWaits(s: State, t: nat)
    requires t < |s.tasks| && s.tasks[t] == Clearing(0, [])
    ensures Play(s, [Clear(t), Await(t)] + [Check(t)]) ==
            Some(s.(tasks := s.tasks[t := if s.inUse > 0 then Parked(true, s.epoch) else Returned(true)]))
  {
    var s1, s2 := s.(tasks := s.tasks[t := Notifying([], true)]), s.(tasks := s.tasks[t := Awaiting(true)]);
    DrainSteps(s, t);
    hide Next, Enabled;
    PlayTwo(s, Clear(t), Await(t));
    PlayStep(s2, Check(t), []);
    assert [Check(t)] + [] == [Check(t)];
    PlayConcat(s, [Clear(t), Await(t)], [Check(t)]);
  }

  lemma DrainSteps(s: State, t: nat)
    requires t < |s.tasks| && s.tasks[t] == Clearing(0, [])
    ensures var s1, s2 := s.(tasks := s.tasks[t := Notifying([], true)]), s.(tasks := s.tasks[t := Awaiting(true)]);
            && Enabled(s, Clear(t)) && Next(s, Clear(t)) == s1
            && Enabled(s1, Await(t)) && Next(s1, Await(t)) == s2
            && Enabled(s2, Check(t))
            && Next(s2, Check(t)) == s.(tasks := s.tasks[t := if s.inUse > 0 then Parked(true, s.epoch) else Returned(true)])
  {
    var z := if s.inUse > 0 then Parked(true, s.epoch) else Returned(true);
    assert s.tasks[t := Notifying([], true)][t := Awaiting(true)] == s.tasks[t := Awaiting(true)];
    assert s.tasks[t := Awaiting(true)][t := z] == s.tasks[t := z];
  }

  function DrainClearing(): State
  {
    State(1, 0, [], 1, 0, false, true, [], [Sending(1, Some(0), false), Waiter(false, None), Clearing(0, [])], 1, 0, 1)
  }

  lemma ReachClearing()
    ensures Play(ONE, [Enter, DialOk(0)] + [Enter] + [Release(0), Drain]) == Some(DrainClearing())
  {
    ReachHeld();
    var s3 := HeldAndWaiting();
    var s4 := Next(s3, Release(0));
    assert s4 == State(1, 0, [], 1, 0, false, false, [], [Sending(1, Some(0), false), Waiter(false, None)], 1, 0, 1);
    assert Next(s4, Drain) == DrainClearing();
    hide Next;
    PlayTwo(s3, Release(0), Drain);
    PlayConcat(ONE, [Enter, DialOk(0)] + [Enter], [Release(0), Drain]);
  }

  // ---- Waking up ----

  // In idleCond.Wait, with no broadcast since.
  predicate Asleep(s: State, x: Task) { x.Parked? && x.since >= s.epoch }

  // Nobody sleeps who would find nothing left to wait for.
  ghost predicate NoneForgotten(s: State)
  {
    forall t :: 0 <= t < |s.tasks| && Asleep(s, s.tasks[t]) ==> KeepsWaiting(s, s.tasks[t].drain)
  }

  // The last handle vanishes in a failed dial, which lowers inUse without a broadcast.
  ghost predicate Forgets(s: State, a: Step)
  {
    a.DialGiveUp? && s.inUse == 1 && exists t :: 0 <= t < |s.tasks| && Asleep(s, s.tasks[t])
  }

  // Whoever is asleep afterwards was asleep before, or has just found a reason to wait.
  lemma SleepersOf(s: State, a: Step)
    requires PhasesOk(s) && Enabled(s, a)
    ensures var v := Next(s, a);
            forall t :: 0 <= t < |v.tasks| && Asleep(v, v.tasks[t]) ==>
              (t < |s.tasks| && s.tasks[t] == v.tasks[t] && Asleep(s, s.tasks[t]) && v.epoch == s.epoch)
              || (a == Check(t) && KeepsWaiting(s, v.tasks[t].drain))
  {
    SteppedAny(s, a);
    hide Next, Enabled;
  }

  // Without a broadcast, inUse falls only in a failed dial, and closed stays as it was.
  lemma QuietEpoch(s: State, a: Step)
    requires Enabled(s, a) && Next(s, a).epoch == s.epoch && CountsOk(s)
    ensures Next(s, a).closed == s.closed
    ensures s.inUse > 0 ==> Next(s, a).inUse > 0 || (a.DialGiveUp? && s.inUse == 1)
  {
    hide Kept, Without, Total;
  }

  lemma ForgottenStep(s: State, a: Step)
    requires PhasesOk(s) && Inv(s) && Enabled(s, a) && NoneForgotten(s)
    ensures NoneForgotten(Next(s, a)) <==> !Forgets(s, a)
  {
    var v := Next(s, a);
    SleepersOf(s, a);
    if Forgets(s, a) {
      GivesUp(s, a.t);
      hide Next, Enabled, Inv;
      var t :| 0 <= t < |s.tasks| && Asleep(s, s.tasks[t]);
      assert Asleep(v, v.tasks[t]) && !KeepsWaiting(v, v.tasks[t].drain);
    } else {
      if v.epoch == s.epoch { QuietEpoch(s, a); }
      if a.Check? { CheckKeeps(s, a); }
      hide Next, Enabled, Inv, PhasesOk;
    }
  }

  lemma GivesUp(s: State, t: nat)
    requires Enabled(s, DialGiveUp(t))
    ensures var v := Next(s, DialGiveUp(t));
            v.inUse == s.inUse - 1 && v.epoch == s.epoch && |v.tasks| == |s.tasks|
            && forall u :: 0 <= u < |s.tasks| && s.tasks[u].Parked? ==> v.tasks[u] == s.tasks[u]
  {
  }

  lemma CheckKeeps(s: State, a: Step)
    requires Enabled(s, a) && a.Check?
    ensures Next(s, a).inUse == s.inUse && Next(s, a).closed == s.closed
  {
  }

  /** No wake-up is lost in a run exactly when no failed dial takes inUse from one to zero while
      somebody is asleep. */
  lemma WakeUpsExact(states: seq<State>, steps: seq<Step>)
    requires Run(states, steps)
    ensures (forall i :: 0 <= i < |states| ==> NoneForgotten(states[i])) <==>
            (forall i :: 0 <= i < |steps| ==> !Forgets(states[i], steps[i]))
  {
    hide Next, Enabled, NoneForgotten, Forgets;
    if forall i :: 0 <= i < |steps| ==> !Forgets(states[i], steps[i]) {
      forall i | 0 <= i < |states| ensures NoneForgotten(states[i]) { NoneForgottenAt(states, steps, i); }
    } else if forall i :: 0 <= i < |states| ==> NoneForgotten(states[i]) {
      var i :| 0 <= i < |steps| && Forgets(states[i], steps[i]);
      RunKeepsInv(states, steps, i);
      RunKeepsPhases(states, steps, i);
      ForgottenStep(states[i], steps[i]);
      assert states[i + 1] == Next(states[i], steps[i]);
    }
  }

  lemma {:induction false} NoneForgottenAt(states: seq<State>, steps: seq<Step>, i: nat)
    requires Run(states, steps) && i < |states| && forall k :: 0 <= k < |steps| ==> !Forgets(states[k], steps[k])
    ensures NoneForgotten(states[i])
  {
    hide Next, Enabled, Forgets;
    FreshStart(states, steps);
    if i > 0 {
      NoneForgottenAt(states, steps, i - 1);
      RunKeepsInv(states, steps, i - 1);
      RunKeepsPhases(states, steps, i - 1);
      ForgottenStep(states[i - 1], steps[i - 1]);
    }
  }

  /** In such a run a Drain (or WaitIdle) that waits for nothing can return at once. */
  lemma WaiterCanReturn(states: seq<State>, steps: seq<Step>, i: nat, t: nat)
    requires Run(states, steps) && i < |states| && t < |states[i].tasks|
    requires forall k :: 0 <= k < |steps| ==> !Forgets(states[k], steps[k])
    requires states[i].tasks[t].Awaiting? || states[i].tasks[t].Parked?
    requires !KeepsWaiting(states[i], states[i].tasks[t].drain)
    ensures Enabled(states[i], Check(t)) && Next(states[i], Check(t)).tasks[t] == Returned(states[i].tasks[t].drain)
  {
    hide Forgets;
    NoneForgottenAt(states, steps, i);
    assert !Asleep(states[i], states[i].tasks[t]);
  }

  // The steps that broadcast: the last handle comes back or is discarded, the pool is closed, or a
  // caller of Drain or WaitIdle gives up.
  predicate Broadcasts(s: State, a: Step)
  {
    || (s.inUse == 1 && (a.Release? || a.DropHandle?))
    || (a.Close? && !s.closed)
    || a.GiveUp?
  }

  /** Whoever slept before a broadcast is awake after it. */
  lemma BroadcastWakes(s: State, a: Step, t: nat)
    requires PhasesOk(s) && Enabled(s, a) && Broadcasts(s, a) && t < |s.tasks|
    ensures t < |Next(s, a).tasks| && !Asleep(Next(s, a), s.tasks[t])
  {
    assert s.tasks[t].Parked? ==> s.tasks[t].since <= s.epoch;
    assert Next(s, a).epoch == s.epoch + 1;
    SteppedAny(s, a);
    hide Next, Enabled;
  }

  // ---- Sleeping for ever ----

  // Steps other than the broadcasts of Close and of a caller that gives up.
  predicate Ordinary(a: Step) { !a.Close? && !a.GiveUp? }

  // No continuation of ordinary steps moves task t.
  ghost predicate SleepsOn(s: State, t: nat)
    requires t < |s.tasks|
  {
    forall more :: Play(s, more).Some? && (forall i :: 0 <= i < |more| ==> Ordinary(more[i])) ==>
      |Play(s, more).value.tasks| > t && Play(s, more).value.tasks[t] == s.tasks[t]
  }

  lemma SleepsLocal(s: State, a: Step, t: nat)
    requires Enabled(s, a) && Local(a) && Ordinary(a) && !a.DropHandle? && t < |s.tasks| && Asleep(s, s.tasks[t])
    ensures t < |Next(s, a).tasks| && Next(s, a).tasks[t] == s.tasks[t] && Asleep(Next(s, a), s.tasks[t])
  {
    LocalStep(s, a);
    assert Next(s, a).epoch == s.epoch;
    hide Next;
  }

  lemma SleepsOther(s: State, a: Step, t: nat)
    requires Enabled(s, a) && !Local(a) && Ordinary(a) && !a.Release? && t < |s.tasks| && Asleep(s, s.tasks[t])
    ensures t < |Next(s, a).tasks| && Next(s, a).tasks[t] == s.tasks[t] && Asleep(Next(s, a), s.tasks[t])
  {
    hide Kept, Without;
  }

  lemma SleepsThrough(s: State, a: Step, t: nat)
    requires Quiet(s) && Enabled(s, a) && Ordinary(a) && t < |s.tasks| && Asleep(s, s.tasks[t])
    ensures t < |Next(s, a).tasks| && Next(s, a).tasks[t] == s.tasks[t] && Asleep(Next(s, a), s.tasks[t])
  {
    if a.Release? || a.DropHandle? { HeldSurfaces(s, a.t); }
    hide Next, Quiet, Enabled;
    if Local(a) { SleepsLocal(s, a, t); } else { SleepsOther(s, a, t); }
  }

  /** In a stopped pool, whoever is asleep stays asleep in every continuation without a Close and
      without a caller giving up. */
  lemma {:induction false} SleepsForever(s: State, steps: seq<Step>, t: nat)
    requires Inv(s) && Quiet(s) && t < |s.tasks| && Asleep(s, s.tasks[t])
    requires Play(s, steps).Some? && forall i :: 0 <= i < |steps| ==> Ordinary(steps[i])
    ensures var v := Play(s, steps).value; t < |v.tasks| && v.tasks[t] == s.tasks[t] && Asleep(v, v.tasks[t])
    decreases |steps|
  {
    if steps != [] {
      hide Next, Enabled, Inv, Quiet;
      SleepsThrough(s, steps[0], t);
      QuietKept(s, steps[0]);
      InvNext(s, steps[0]);
      SleepsForever(Next(s, steps[0]), steps[1..], t);
    }
  }

  function DrainParked(): State
  {
    State(1, 0, [], 1, 1, false, true, [], [Dialing, Parked(true, 0)], 0, 0, 0)
  }

  function DrainForgotten(): State
  {
    State(1, 0, [], 0, 0, false, true, [], [Done, Parked(true, 0)], 0, 0, 0)
  }

  lemma ReachParked()
    ensures Play(ONE, [Enter, Drain] + ([Clear(1), Await(1)] + [Check(1)])) == Some(DrainParked())
  {
    StartOne();
    var s1 := Next(ONE, Enter);
    assert s1 == State(1, 0, [], 1, 1, false, false, [], [Dialing], 0, 0, 0);
    var s2 := Next(s1, Drain);
    assert s2 == State(1, 0, [], 1, 1, false, true, [], [Dialing, Clearing(0, [])], 0, 0, 0);
    hide Next;
    PlayTwo(ONE, Enter, Drain);
    hide Play;
    DrainWaits(s2, 1);
    assert s2.tasks[1 := Parked(true, 0)] == DrainParked().tasks;
    PlayConcat(ONE, [Enter, Drain], [Clear(1), Await(1)] + [Check(1)]);
  }

  lemma ReachForgotten()
    ensures Play(DrainParked(), [DialErr(0), DialGiveUp(0)] + [Discard(0)]) == Some(DrainForgotten())
  {
    var s5 := DrainParked();
    var s6 := Next(s5, DialErr(0));
    assert s6 == State(1, 0, [], 1, 1, false, true, [], [DialFailed, Parked(true, 0)], 0, 0, 0);
    var s7 := Next(s6, DialGiveUp(0));
    assert s7 == State(1, 0, [], 1, 0, false, true, [], [Discarding, Parked(true, 0)], 0, 0, 0);
    assert Next(s7, Discard(0)) == DrainForgotten();
    hide Next;
    PlayTwo(s5, DialErr(0), DialGiveUp(0));
    PlayStep(s7, Discard(0), []);
    assert [Discard(0)] + [] == [Discard(0)];
    PlayConcat(s5, [DialErr(0), DialGiveUp(0)], [Discard(0)]);
  }

  /** A Drain that waits for a dial which then fails sleeps on with nothing in use: no continuation
      wakes it, except Close or its own context. */
  lemma DrainSleepsOn() returns (states: seq<State>, steps: seq<Step>)
    ensures Run(states, steps) && |states| == |steps| + 1
    ensures var s := states[|steps|];
            && |s.tasks| == 2 && s.tasks[1].Parked? && s.tasks[1].drain && s.inUse == 0
            && SleepsOn(s, 1)
  {
    hide *;
    states, steps := ForgottenRun();
    ForgottenIs();
    RunKeepsInv(states, steps, |steps|);
    StaysAsleep(DrainForgotten(), 1);
  }

  lemma ForgottenIs()
    ensures var s := DrainForgotten();
            |s.tasks| == 2 && s.tasks[1].Parked? && s.tasks[1].drain && s.inUse == 0 && Quiet(s) && Asleep(s, s.tasks[1])
  {
  }

  lemma StaysAsleep(s: State, t: nat)
    requires Inv(s) && Quiet(s) && t < |s.tasks| && Asleep(s, s.tasks[t])
    ensures SleepsOn(s, t)
  {
    hide Inv, Quiet, Play, Asleep, Ordinary;
    forall more | Play(s, more).Some? && (forall i :: 0 <= i < |more| ==> Ordinary(more[i]))
      ensures |Play(s, more).value.tasks| > t && Play(s, more).value.tasks[t] == s.tasks[t] {
      SleepsForever(s, more, t);
    }
  }

  lemma ForgottenRun() returns (states: seq<State>, steps: seq<Step>)
    ensures Run(states, steps) && |states| == |steps| + 1 && states[|steps|] == DrainForgotten()
  {
    hide *;
    ReachParked();
    ReachForgotten();
    StartIsRun();
    var mid, last := [Enter, Drain] + ([Clear(1), Await(1)] + [Check(1)]), [DialErr(0), DialGiveUp(0)] + [Discard(0)];
    PlayConcat(ONE, mid, last);
    steps := mid + last;
    states := PlayIsRun([ONE], [], steps);
    assert [] + steps == steps;
    RunLength(states, steps);
  }
}
