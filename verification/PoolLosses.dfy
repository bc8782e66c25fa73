/** Connections handed to a waiter that has given up: they stay in its channel, still counted by
    open, and nobody ever closes or reuses them. */
module PoolLosses {
  import opened Bytes
  import opened Pool
  import opened PoolBounds
  import opened PoolLimits
  import opened PoolService

  // An entry in a channel that nobody reads any more.
  predicate Lost(x: Task) { x.Waiter? && x.cancelled && x.inbox.Some? && x.inbox.value.Some? }

  ghost predicate NoneLost(s: State) { forall t :: 0 <= t < |s.tasks| ==> !Lost(s.tasks[t]) }

  // put or a replacement sends to a waiter that has just left, or a waiter leaves although its
  // connection has come.
  predicate Loses(s: State, a: Step)
    requires Enabled(s, a)
  {
    match a
    case Send(t) => s.tasks[t].msg.Some? && s.tasks[s.tasks[t].ch].cancelled
    case Cancel(t) => s.tasks[t].inbox.Some? && s.tasks[t].inbox.value.Some?
    case _ => false
  }

  lemma LossLocal(s: State, a: Step)
    requires Enabled(s, a) && Local(a) && NoneLost(s)
    ensures NoneLost(Next(s, a))
  {
    LocalStep(s, a);
    assert !Moved(s, a).Waiter?;
    hide Next;
  }

  lemma LossSent(s: State, a: Step)
    requires TargetsOk(s.tasks) && Enabled(s, a) && (a.Send? || a.Notify?) && NoneLost(s)
    ensures NoneLost(Next(s, a)) <==> !Loses(s, a)
  {
    SentTasks(s, a);
    var v, ch := Next(s, a), Targets(s.tasks[a.t])[0];
    assert v.tasks[ch] == s.tasks[ch].(inbox := Some(if a.Send? then s.tasks[a.t].msg else None)) && !v.tasks[a.t].Waiter?;
    hide Next, TargetsOk;
    assert NoneLost(v) <==> !Lost(v.tasks[ch]);
  }

  lemma LossOther(s: State, a: Step)
    requires Enabled(s, a) && !Local(a) && !a.Send? && !a.Notify? && NoneLost(s)
    ensures NoneLost(Next(s, a)) <==> !Loses(s, a)
  {
    if a.Cancel? {
      CancelTasks(s, a.t);
      assert Next(s, a).tasks[a.t] == s.tasks[a.t].(cancelled := true);
      hide Next;
    } else {
      hide Kept, Without;
    }
  }

  lemma LossStep(s: State, a: Step)
    requires Inv(s) && Enabled(s, a) && NoneLost(s)
    ensures NoneLost(Next(s, a)) <==> !Loses(s, a)
  {
    hide Next, NoneLost, OwnersOk, CountsOk, QueuedOk, QueuesOk, TargetsOk;
    if Local(a) {
      LossLocal(s, a);
    } else if a.Send? || a.Notify? {
      LossSent(s, a);
    } else {
      LossOther(s, a);
    }
  }

  /** No connection is lost in a run exactly when none is sent to a waiter that has given up and no
      waiter gives up with its connection in its channel. */
  lemma LossExact(states: seq<State>, steps: seq<Step>)
    requires Run(states, steps)
    ensures (forall i :: 0 <= i < |states| ==> NoneLost(states[i])) <==>
            (forall i :: 0 <= i < |steps| ==> !Loses(states[i], steps[i]))
  {
    hide Next, Enabled, NoneLost, Loses;
    if forall i :: 0 <= i < |steps| ==> !Loses(states[i], steps[i]) {
      forall i | 0 <= i < |states| ensures NoneLost(states[i]) { NoneLostAt(states, steps, i); }
    } else if forall i :: 0 <= i < |states| ==> NoneLost(states[i]) {
      var i :| 0 <= i < |steps| && Loses(states[i], steps[i]);
      RunKeepsInv(states, steps, i);
      LossStep(states[i], steps[i]);
      assert states[i + 1] == Next(states[i], steps[i]);
    }
  }

  lemma {:induction false} NoneLostAt(states: seq<State>, steps: seq<Step>, i: nat)
    requires Run(states, steps) && i < |states| && forall k :: 0 <= k < |steps| ==> !Loses(states[k], steps[k])
    ensures NoneLost(states[i])
  {
    hide Next, Enabled, Loses;
    FreshStart(states, steps);
    if i > 0 {
      NoneLostAt(states, steps, i - 1);
      RunKeepsInv(states, steps, i - 1);
      LossStep(states[i - 1], steps[i - 1]);
    }
  }

  // ---- All slots lost ----

  // A task that may still lower open.
  predicate Lowers(x: Task) { x.Owing? || x.Closing? || x.Clearing? || x.Replacing? || (x.Sending? && x.owes) }

  // An open pool at its limit with no connection that anybody can reach.
  ghost predicate Dead(s: State)
  {
    Running(s) && s.idle == [] && s.open >= s.max && NoServer(s) && forall t :: 0 <= t < |s.tasks| ==> !Lowers(s.tasks[t])
  }

  lemma DeadLocal(s: State, a: Step)
    requires TargetsOk(s.tasks) && Dead(s) && Enabled(s, a) && Local(a)
    ensures Dead(Next(s, a))
  {
    LocalStep(s, a);
    assert !Serves(s, s.tasks[a.t]) && !Lowers(s.tasks[a.t]);
    DeadMoved(s, a);
    LocalServes(s, a);
    hide Next, Moved, TargetsOk, Serves;
  }

  lemma DeadMoved(s: State, a: Step)
    requires Enabled(s, a) && Local(a) && !Serves(s, s.tasks[a.t]) && !Lowers(s.tasks[a.t])
    ensures !Lowers(Moved(s, a)) && !a.ReplaceErr?
    ensures var v := Next(s, a); v.closed == s.closed && v.draining == s.draining && v.open == s.open && v.max == s.max
  {
  }

  lemma DeadOther(s: State, a: Step)
    requires Inv(s) && Dead(s) && Enabled(s, a) && !Local(a) && !a.Drain? && !a.Close?
    ensures Dead(Next(s, a))
  {
    hide OwnersOk, CountsOk, QueuedOk, QueuesOk;
    if a.Discard? || a.Release? {
      HolderServes(s, a);
    } else if a.Send? || a.Notify? {
      SentServes(s, a);
      DeadSent(s, a);
      hide Next, TargetsOk;
    } else if a.Cancel? {
      CancelServes(s, a.t);
      hide TargetsOk, NoServer, Without;
    } else {
      SpawnServes(s, a);
      hide TargetsOk, NoServer;
    }
  }

  lemma DeadSent(s: State, a: Step)
    requires TargetsOk(s.tasks) && Dead(s) && Enabled(s, a) && (a.Send? || a.Notify?)
    ensures var v := Next(s, a);
            && v.closed == s.closed && v.draining == s.draining && v.open == s.open && v.max == s.max && v.idle == s.idle
            && forall t :: 0 <= t < |v.tasks| ==> !Lowers(v.tasks[t])
  {
    SentTasks(s, a);
    hide NoServer;
    assert !Lowers(s.tasks[a.t]);
  }

  /** Such a pool never hands out a connection again: every Acquire queues until its context ends
      or the pool is stopped. */
  lemma {:induction false} DeadForGood(s: State, steps: seq<Step>)
    requires Inv(s) && Dead(s) && Play(s, steps).Some? && forall i :: 0 <= i < |steps| ==> !steps[i].Drain? && !steps[i].Close?
    ensures Dead(Play(s, steps).value) && !HandleOut(Play(s, steps).value)
    decreases |steps|
  {
    if steps == [] {
      assert forall t :: 0 <= t < |s.tasks| ==> !Serves(s, s.tasks[t]);
    } else {
      hide Next, Enabled, Inv, Dead, HandleOut;
      if Local(steps[0]) { assert TargetsOk(s.tasks) by { InvTargets(s); } DeadLocal(s, steps[0]); } else { DeadOther(s, steps[0]); }
      InvNext(s, steps[0]);
      assert forall i :: 0 <= i < |steps[1..]| ==> steps[1..][i] == steps[i + 1];
      DeadForGood(Next(s, steps[0]), steps[1..]);
    }
  }

  lemma InvTargets(s: State)
    requires Inv(s)
    ensures TargetsOk(s.tasks)
  {
    hide OwnersOk, CountsOk, QueuedOk, QueuesOk, TargetsOk;
  }

  function LostOne(): State
  {
    State(1, 0, [], 1, 0, false, false, [], [Done, Waiter(true, Some(Some(0)))], 1, 0, 1)
  }

  lemma ReachLost()
    ensures Play(HeldAndWaiting(), [Release(0), Cancel(1)] + [Send(0)]) == Some(LostOne())
  {
    var s := HeldAndWaiting();
    var s1 := Next(s, Release(0));
    assert s1 == State(1, 0, [], 1, 0, false, false, [], [Sending(1, Some(0), false), Waiter(false, None)], 1, 0, 1);
    var s2 := Next(s1, Cancel(1));
    assert s2 == State(1, 0, [], 1, 0, false, false, [], [Sending(1, Some(0), false), Waiter(true, None)], 1, 0, 1);
    assert Next(s2, Send(0)) == LostOne();
    hide Next;
    PlayTwo(s, Release(0), Cancel(1));
    PlayStep(s2, Send(0), []);
    assert [Send(0)] + [] == [Send(0)];
    PlayConcat(s, [Release(0), Cancel(1)], [Send(0)]);
  }

  /** With MaxConns 1: a connection is released to a waiter whose context has just ended, and the
      pool is dead though open and healthy. */
  lemma ReleasedToNobody() returns (states: seq<State>, steps: seq<Step>)
    ensures Run(states, steps) && |states| == |steps| + 1 && states[0] == Start(1, 0)
    ensures Dead(states[|steps|]) && !NoneLost(states[|steps|])
  {
    hide *;
    ReachHeld();
    ReachLost();
    LostIs();
    StartIsRun();
    var a, b := [Enter, DialOk(0)] + [Enter], [Release(0), Cancel(1)] + [Send(0)];
    PlayConcat(ONE, a, b);
    steps := a + b;
    states := PlayIsRun([ONE], [], steps);
    assert [] + steps == steps;
    RunLength(states, steps);
  }

  lemma LostIs()
    ensures Dead(LostOne()) && !NoneLost(LostOne())
  {
    assert Lost(LostOne().tasks[1]);
  }
}
