/** Whether a queued Acquire has anything left to serve it, where connections are lost for good,
    and when a waiter is told ErrClosed by a pool that is open. */
module PoolService {
  import opened Bytes
  import opened Pool
  import opened PoolBounds
  import opened PoolLimits

  // ---- Being served ----

  // A task that may still come to the queue in put or discard.
  predicate Serves(s: State, x: Task) { Surfaces(s, x) || x.DialFailed? || x.Discarding? }

  ghost predicate NoServer(s: State) { forall t :: 0 <= t < |s.tasks| ==> !Serves(s, s.tasks[t]) }

  // Whoever is queued has somebody to wait for.
  ghost predicate Served(s: State) { s.waiters != [] ==> !NoServer(s) }

  // Task u, which is x, serves only as long as channel ch listens.
  predicate DependsOn(x: Task, u: nat, ch: Chan)
  {
    u == ch || ((x.Sending? || x.Replacing?) && x.ch == ch)
  }

  // The steps that leave a queue with nobody to serve it: an Acquire that queues behind nothing, a
  // last replacement dial that fails, a cancelled waiter that was to get the last connection.
  ghost predicate Starves(s: State, a: Step)
  {
    match a
    case Enter => !s.closed && !s.draining && s.idle == [] && s.open >= s.max && NoServer(s)
    case ReplaceErr(t) => s.waiters != [] && forall u :: 0 <= u < |s.tasks| && Serves(s, s.tasks[u]) ==> u == t
    case Cancel(t) => Without(s.waiters, t) != [] && forall u :: 0 <= u < |s.tasks| && Serves(s, s.tasks[u]) ==> DependsOn(s.tasks[u], u, t)
    case _ => false
  }

  lemma LocalServes(s: State, a: Step)
    requires TargetsOk(s.tasks) && Enabled(s, a) && Local(a)
    ensures NoServer(Next(s, a)) <==>
            if a.ReplaceErr? then forall u :: 0 <= u < |s.tasks| && Serves(s, s.tasks[u]) ==> u == a.t else NoServer(s)
  {
    LocalTasks(s, a);
    MovedServes(s, a);
    hide Next, Moved, Enabled, TargetsOk;
    var v := Next(s, a);
    forall u | 0 <= u < |s.tasks| && u != a.t ensures Serves(v, v.tasks[u]) <==> Serves(s, s.tasks[u]) {
      ServesOther(s, v, u, a.t);
    }
    assert 0 <= a.t < |v.tasks| == |s.tasks| && v.tasks[a.t] == Moved(s, a);
    assert Serves(v, v.tasks[a.t]) <==> Serves(s, s.tasks[a.t]) && !a.ReplaceErr?;
    hide Serves;
  }

  lemma LocalTasks(s: State, a: Step)
    requires TargetsOk(s.tasks) && Enabled(s, a) && Local(a)
    ensures Next(s, a).tasks == s.tasks[a.t := Moved(s, a)] && Next(s, a).closed == s.closed
    ensures forall u :: 0 <= u < |s.tasks| && (s.tasks[u].Sending? || s.tasks[u].Replacing?) ==> s.tasks[u].ch != a.t
    ensures forall c :: c != a.t ==> (Listening(Next(s, a).tasks, c) <==> Listening(s.tasks, c))
  {
    LocalStep(s, a);
    LocalClosed(s, a);
    hide Next, Moved;
    forall u | 0 <= u < |s.tasks| && (s.tasks[u].Sending? || s.tasks[u].Replacing?) ensures s.tasks[u].ch != a.t {
      assert Targets(s.tasks[u])[0] == s.tasks[u].ch;
    }
  }

  lemma LocalClosed(s: State, a: Step)
    requires Enabled(s, a) && Local(a)
    ensures Next(s, a).closed == s.closed
  {
  }

  lemma MovedServes(s: State, a: Step)
    requires Enabled(s, a) && Local(a)
    ensures Serves(Next(s, a), Moved(s, a)) <==> Serves(s, s.tasks[a.t]) && !a.ReplaceErr?
  {
  }

  // Another task whose channel keeps listening, or stops, serves on accordingly.
  lemma ServesOther(s: State, v: State, u: nat, ch: Chan)
    requires u < |s.tasks| && u < |v.tasks| && v.tasks[u] == s.tasks[u] && u != ch && v.closed == s.closed
    requires forall c :: c != ch ==> (Listening(v.tasks, c) <==> Listening(s.tasks, c))
    ensures (s.tasks[u].Sending? || s.tasks[u].Replacing? ==> s.tasks[u].ch != ch) ==> (Serves(v, v.tasks[u]) <==> Serves(s, s.tasks[u]))
    ensures (s.tasks[u].Sending? || s.tasks[u].Replacing?) && s.tasks[u].ch == ch && !Listening(v.tasks, ch) ==> !Serves(v, v.tasks[u])
  {
  }

  // put and discard pass on what they hold to the head of the queue.
  lemma PassesOn(s: State, a: Step)
    requires QueuedOk(s.tasks, s.waiters) && QueuesOk(s) && Enabled(s, a) && (a.Discard? || a.Release?) && s.waiters != []
    ensures Serves(s, s.tasks[a.t]) && a.t < |Next(s, a).tasks| && Serves(Next(s, a), Next(s, a).tasks[a.t])
  {
    var ch := s.waiters[0];
    assert s.tasks[ch] == Waiter(false, None) && !s.closed && !s.draining;
    hide QueuedOk;
  }

  // A message takes over from its sender.
  lemma SentServes(s: State, a: Step)
    requires TargetsOk(s.tasks) && Enabled(s, a) && (a.Send? || a.Notify?)
    ensures NoServer(Next(s, a)) <==> NoServer(s)
  {
    var v, t := Next(s, a), a.t;
    var ch := Targets(s.tasks[t])[0];
    var msg := if a.Send? then s.tasks[t].msg else None;
    SentTasks(s, a);
    assert Serves(v, v.tasks[ch]) <==> Serves(s, s.tasks[t]);
    forall u | 0 <= u < |s.tasks| && u != t && u != ch ensures Serves(v, v.tasks[u]) <==> Serves(s, s.tasks[u]) {
      if s.tasks[u].Sending? || s.tasks[u].Replacing? { assert Targets(s.tasks[u])[0] == s.tasks[u].ch; }
      ServesOther(s, v, u, ch);
    }
    hide Next, TargetsOk, Enabled, Serves;
    assert !Serves(v, v.tasks[t]) && !Serves(s, s.tasks[ch]) by { SentEnds(s, a); }
  }

  lemma SentTasks(s: State, a: Step)
    requires TargetsOk(s.tasks) && Enabled(s, a) && (a.Send? || a.Notify?)
    ensures var v, t, ch := Next(s, a), a.t, Targets(s.tasks[a.t])[0];
            && |v.tasks| == |s.tasks| && ch < |s.tasks| && t != ch && v.closed == s.closed
            && (forall u :: 0 <= u < |s.tasks| && u != t && u != ch ==> v.tasks[u] == s.tasks[u])
            && (forall c :: Listening(v.tasks, c) <==> Listening(s.tasks, c))
  {
  }

  lemma SentEnds(s: State, a: Step)
    requires TargetsOk(s.tasks) && Enabled(s, a) && (a.Send? || a.Notify?)
    ensures var v, t, ch := Next(s, a), a.t, Targets(s.tasks[a.t])[0];
            t < |v.tasks| && ch < |s.tasks| && !Serves(v, v.tasks[t]) && !Serves(s, s.tasks[ch])
  {
  }

  lemma CancelServes(s: State, t: nat)
    requires Enabled(s, Cancel(t))
    ensures NoServer(Next(s, Cancel(t))) <==> forall u :: 0 <= u < |s.tasks| && Serves(s, s.tasks[u]) ==> DependsOn(s.tasks[u], u, t)
  {
    var v := Next(s, Cancel(t));
    CancelTasks(s, t);
    forall u | 0 <= u < |s.tasks| ensures Serves(v, v.tasks[u]) <==> Serves(s, s.tasks[u]) && !DependsOn(s.tasks[u], u, t) {
      if u != t { ServesOther(s, v, u, t); }
    }
    hide Next, Serves, DependsOn, Enabled;
  }

  lemma CancelTasks(s: State, t: nat)
    requires Enabled(s, Cancel(t))
    ensures var v := Next(s, Cancel(t));
            && |v.tasks| == |s.tasks| && v.closed == s.closed && !Listening(v.tasks, t) && v.waiters == Without(s.waiters, t)
            && v.tasks[t].Waiter? && v.tasks[t].cancelled
            && (forall u :: 0 <= u < |s.tasks| && u != t ==> v.tasks[u] == s.tasks[u])
            && (forall c :: c != t ==> (Listening(v.tasks, c) <==> Listening(s.tasks, c)))
  {
    hide Without;
  }

  // The first section of acquireOnce, WaitIdle and evictIdle leave what there is alone.
  lemma SpawnServes(s: State, a: Step)
    requires TargetsOk(s.tasks) && Enabled(s, a) && (a.Enter? || a.WaitIdle? || a.Evict?)
    ensures NoServer(Next(s, a)) <==>
            NoServer(s) && !(a.Enter? && !s.closed && !s.draining && (s.idle != [] || s.open < s.max))
  {
    var v := Next(s, a);
    SpawnTasks(s, a);
    forall u | 0 <= u < |s.tasks| ensures Serves(v, v.tasks[u]) <==> Serves(s, s.tasks[u]) {
      if s.tasks[u].Sending? || s.tasks[u].Replacing? { assert Targets(s.tasks[u])[0] == s.tasks[u].ch; }
      ServesOther(s, v, u, |s.tasks|);
    }
    hide Next, TargetsOk, Enabled;
  }

  lemma SpawnTasks(s: State, a: Step)
    requires Enabled(s, a) && (a.Enter? || a.WaitIdle? || a.Evict?)
    ensures var v := Next(s, a);
            && |s.tasks| <= |v.tasks| <= |s.tasks| + 1 && v.closed == s.closed && (a.Evict? ==> v.tasks == s.tasks)
            && (forall u :: 0 <= u < |s.tasks| ==> v.tasks[u] == s.tasks[u])
            && (|v.tasks| > |s.tasks| ==> (Serves(v, v.tasks[|s.tasks|]) <==> a.Enter? && (s.idle != [] || s.open < s.max)))
            && (a.Enter? && !s.closed && !s.draining <==> a.Enter? && |v.tasks| > |s.tasks|)
            && (forall c :: c != |s.tasks| ==> (Listening(v.tasks, c) <==> Listening(s.tasks, c)))
  {
    hide Kept;
  }

  // What a step does to the queue.
  lemma QueueAfter(s: State, a: Step)
    requires Enabled(s, a)
    ensures Local(a) || a.Send? || a.Notify? || a.WaitIdle? || a.Evict? ==> Next(s, a).waiters == s.waiters
    ensures (a.Discard? || a.Release?) && s.waiters == [] ==> Next(s, a).waiters == []
    ensures (a.Drain? || a.Close?) && !s.closed ==> Next(s, a).waiters == []
    ensures (a.Drain? || a.Close?) && s.closed ==> Next(s, a) == s
    ensures a.Enter? ==> Next(s, a).waiters ==
                         if !s.closed && !s.draining && s.idle == [] && s.open >= s.max then s.waiters + [|s.tasks|] else s.waiters
  {
    hide Kept, Without, Deliver;
  }

  lemma ServedStep(s: State, a: Step)
    requires Inv(s) && Enabled(s, a) && Served(s)
    ensures Served(Next(s, a)) <==> !Starves(s, a)
  {
    QueueAfter(s, a);
    hide Next, Enabled, Serves, OwnersOk, CountsOk, TargetsOk, QueuedOk;
    var v := Next(s, a);
    if Local(a) {
      LocalServes(s, a);
    } else if a.Discard? || a.Release? {
      if s.waiters != [] { PassesOn(s, a); }
    } else if a.Send? || a.Notify? {
      SentServes(s, a);
    } else if a.Cancel? {
      CancelServes(s, a.t);
      CancelTasks(s, a.t);
    } else if a.Drain? || a.Close? {
    } else {
      SpawnServes(s, a);
    }
  }

  /** In a run, whoever is queued always has somebody to wait for exactly when no step starves the
      queue. */
  lemma ServedExact(states: seq<State>, steps: seq<Step>)
    requires Run(states, steps)
    ensures (forall i :: 0 <= i < |states| ==> Served(states[i])) <==>
            (forall i :: 0 <= i < |steps| ==> !Starves(states[i], steps[i]))
  {
    hide Next, Enabled, Served, Starves;
    if forall i :: 0 <= i < |steps| ==> !Starves(states[i], steps[i]) {
      forall i | 0 <= i < |states| ensures Served(states[i]) { ServedAt(states, steps, i); }
    } else if forall i :: 0 <= i < |states| ==> Served(states[i]) {
      var i :| 0 <= i < |steps| && Starves(states[i], steps[i]);
      RunKeepsInv(states, steps, i);
      ServedStep(states[i], steps[i]);
      assert states[i + 1] == Next(states[i], steps[i]);
    }
  }

  lemma {:induction false} ServedAt(states: seq<State>, steps: seq<Step>, i: nat)
    requires Run(states, steps) && i < |states| && forall k :: 0 <= k < |steps| ==> !Starves(states[k], steps[k])
    ensures Served(states[i])
  {
    hide Next, Enabled, Starves;
    if i == 0 {
      assert states[0].waiters == [];
    } else {
      ServedAt(states, steps, i - 1);
      RunKeepsInv(states, steps, i - 1);
      ServedStep(states[i - 1], steps[i - 1]);
    }
  }

  // ---- Without a server, for good ----

  // Steps other than a new Acquire, Drain, Close, and waiter w giving up.
  predicate Bystander(a: Step, w: Chan) { !a.Enter? && !a.Drain? && !a.Close? && a != Cancel(w) }

  lemma HolderServes(s: State, a: Step)
    requires Enabled(s, a) && (a.Discard? || a.Release?)
    ensures !NoServer(s)
  {
    assert Serves(s, s.tasks[a.t]);
  }

  lemma StarvedStep(s: State, a: Step, w: Chan)
    requires Inv(s) && Enabled(s, a) && NoServer(s) && w in s.waiters && Bystander(a, w)
    ensures NoServer(Next(s, a)) && w in Next(s, a).waiters
  {
    QueueAfter(s, a);
    if a.Cancel? { WithoutIs(s.waiters, a.t); }
    hide Next, Enabled, Serves, OwnersOk, CountsOk, TargetsOk, QueuedOk, QueuesOk;
    if Local(a) {
      LocalServes(s, a);
    } else if a.Discard? || a.Release? {
      HolderServes(s, a);
    } else if a.Send? || a.Notify? {
      SentServes(s, a);
    } else if a.Cancel? {
      CancelServes(s, a.t);
      CancelTasks(s, a.t);
    } else {
      SpawnServes(s, a);
    }
  }

  lemma {:induction false} StarvedForGood(s: State, w: Chan, steps: seq<Step>)
    requires Inv(s) && NoServer(s) && w in s.waiters && Play(s, steps).Some?
    requires forall i :: 0 <= i < |steps| ==> Bystander(steps[i], w)
    ensures w in Play(s, steps).value.waiters
    decreases |steps|
  {
    if steps != [] {
      hide Next, Enabled, Inv, NoServer, Bystander;
      StarvedStep(s, steps[0], w);
      InvNext(s, steps[0]);
      assert forall i :: 0 <= i < |steps[1..]| ==> steps[1..][i] == steps[i + 1];
      StarvedForGood(Next(s, steps[0]), w, steps[1..]);
    }
  }

  // ---- With a server, within reach ----

  // How many steps a serving task is from the queue.
  function Rank(x: Task): nat
  {
    match x
    case DialFailed => 1
    case Received(_) => 1
    case Dialing => 2
    case Waiter(_, _) => 2
    case Sending(_, _, _) => 3
    case Replacing(_) => 4
    case _ => 0
  }

  function Onward(x: Task, t: nat): Step
  {
    match x
    case Holding(_) => Release(t)
    case Discarding => Discard(t)
    case DialFailed => DialGiveUp(t)
    case Dialing => DialErr(t)
    case Received(_) => Join(t)
    case Waiter(_, _) => Receive(t)
    case Sending(_, _, _) => Send(t)
    case _ => ReplaceOk(t)
  }

  // Where the connection is after that step.
  function Carrier(x: Task, t: nat): nat { if x.Sending? then x.ch else t }

  lemma Advances(s: State, t: nat)
    requires TargetsOk(s.tasks) && t < |s.tasks| && Serves(s, s.tasks[t]) && Rank(s.tasks[t]) > 0
    ensures var a, u := Onward(s.tasks[t], t), Carrier(s.tasks[t], t);
            && Enabled(s, a) && Next(s, a).waiters == s.waiters && u < |Next(s, a).tasks|
            && Serves(Next(s, a), Next(s, a).tasks[u]) && Rank(Next(s, a).tasks[u]) < Rank(s.tasks[t])
  {
    if s.tasks[t].Sending? || s.tasks[t].Replacing? { assert Targets(s.tasks[t])[0] == s.tasks[t].ch; }
    hide TargetsOk;
  }

  lemma Arrives(s: State, t: nat)
    requires QueuesOk(s) && t < |s.tasks| && Serves(s, s.tasks[t]) && Rank(s.tasks[t]) == 0 && s.waiters != []
    ensures Enabled(s, Onward(s.tasks[t], t)) && Next(s, Onward(s.tasks[t], t)).waiters == s.waiters[1..]
  {
  }

  lemma {:induction false} ServesSoon(s: State, t: nat, w: Chan) returns (steps: seq<Step>)
    requires Inv(s) && t < |s.tasks| && Serves(s, s.tasks[t]) && s.waiters != []
    ensures Play(s, steps).Some? && Play(s, steps).value.waiters == s.waiters[1..]
    ensures forall i :: 0 <= i < |steps| ==> Bystander(steps[i], w)
    decreases Rank(s.tasks[t])
  {
    hide Next, Enabled, OwnersOk, CountsOk, QueuedOk, TargetsOk, Serves;
    var a, u := Onward(s.tasks[t], t), Carrier(s.tasks[t], t);
    if Rank(s.tasks[t]) == 0 {
      Arrives(s, t);
      steps := [];
    } else {
      Advances(s, t);
      InvNext(s, a);
      steps := ServesSoon(Next(s, a), u, w);
    }
    PlayStep(s, a, steps);
    steps := [a] + steps;
  }

  /** The waiter at the head of the queue can still be reached without a new Acquire exactly when
      some task serves; otherwise only Drain, Close or its own context ends its wait. */
  lemma StuckExactly(s: State)
    requires Inv(s) && s.waiters != []
    ensures NoServer(s) <==>
            forall steps :: Play(s, steps).Some? && (forall i :: 0 <= i < |steps| ==> Bystander(steps[i], s.waiters[0])) ==>
              s.waiters[0] in Play(s, steps).value.waiters
  {
    var w := s.waiters[0];
    if NoServer(s) {
      hide Inv, Play, Bystander, NoServer;
      forall steps | Play(s, steps).Some? && (forall i :: 0 <= i < |steps| ==> Bystander(steps[i], w))
        ensures w in Play(s, steps).value.waiters { StarvedForGood(s, w, steps); }
    } else {
      var t :| 0 <= t < |s.tasks| && Serves(s, s.tasks[t]);
      assert w !in s.waiters[1..] by { HeadOnce(s); }
      hide Inv, Play, Bystander, Serves;
      var steps := ServesSoon(s, t, w);
    }
  }

  lemma HeadOnce(s: State)
    requires Inv(s) && s.waiters != []
    ensures s.waiters[0] !in s.waiters[1..]
  {
    hide OwnersOk, CountsOk, TargetsOk, QueuesOk;
    assert forall i :: 0 <= i < |s.waiters[1..]| ==> s.waiters[1..][i] == s.waiters[i + 1];
  }

  // ---- A queue left alone ----

  function TwoWaiting(): State
  {
    State(1, 0, [], 1, 1, false, false, [1, 2], [Holding(0), Waiter(false, None), Waiter(false, None)], 1, 0, 0)
  }

  function ReplacingFirst(): State
  {
    State(1, 0, [], 0, 0, false, false, [2], [Replacing(1), Waiter(false, None), Waiter(false, None)], 1, 0, 1)
  }

  function LeftAlone(): State
  {
    State(1, 0, [], -1, 0, false, false, [2], [Done, Waiter(false, Some(None)), Waiter(false, None)], 1, 1, 1)
  }

  lemma ReachTwoWaiting()
    ensures Play(ONE, [Enter, DialOk(0)] + [Enter] + [Enter]) == Some(TwoWaiting())
  {
    ReachHeld();
    var s := HeldAndWaiting();
    assert [Holding(0), Waiter(false, None)] + [Waiter(false, None)] == TwoWaiting().tasks && [1] + [2] == [1, 2];
    assert Next(s, Enter) == TwoWaiting();
    hide Next;
    EnterAnytime(s);
    PlayStep(s, Enter, []);
    assert [Enter] + [] == [Enter];
    PlayConcat(ONE, [Enter, DialOk(0)] + [Enter], [Enter]);
  }

  lemma ReachReplacingFirst()
    ensures Play(TwoWaiting(), [DropHandle(0), Discard(0)]) == Some(ReplacingFirst())
  {
    var s := TwoWaiting();
    var s1 := Next(s, DropHandle(0));
    assert s1 == State(1, 0, [], 1, 0, false, false, [1, 2], [Discarding, Waiter(false, None), Waiter(false, None)], 1, 0, 1);
    assert Next(s1, Discard(0)) == ReplacingFirst();
    hide Next;
    PlayTwo(s, DropHandle(0), Discard(0));
  }

  lemma ReachLeftAlone()
    ensures Play(ReplacingFirst(), [ReplaceErr(0), Send(0)] + [Charge(0)]) == Some(LeftAlone())
  {
    var s := ReplacingFirst();
    var s1 := Next(s, ReplaceErr(0));
    assert s1 == State(1, 0, [], 0, 0, false, false, [2], [Sending(1, None, true), Waiter(false, None), Waiter(false, None)], 1, 0, 1);
    var s2 := Next(s1, Send(0));
    assert s2 == State(1, 0, [], 0, 0, false, false, [2], [Owing, Waiter(false, Some(None)), Waiter(false, None)], 1, 0, 1);
    assert Next(s2, Charge(0)) == LeftAlone();
    hide Next;
    PlayTwo(s, ReplaceErr(0), Send(0));
    PlayStep(s2, Charge(0), []);
    assert [Charge(0)] + [] == [Charge(0)];
    PlayConcat(s, [ReplaceErr(0), Send(0)], [Charge(0)]);
  }

  /** With MaxConns 1, one holder and two waiters: the handle is discarded, the replacement dial for
      the first waiter fails, and the second is left queued with no connection and no dial. The
      first is told ErrClosed although the pool is open. */
  lemma WaiterLeftAlone() returns (states: seq<State>, steps: seq<Step>)
    ensures Run(states, steps) && |states| == |steps| + 1 && states[0] == Start(1, 0)
    ensures var s := states[|steps|];
            && s.waiters == [2] && NoServer(s) && Live(s) == 0 && s.open == -1 && !s.closed && !s.draining
            && |s.tasks| == 3 && s.tasks[1] == Waiter(false, Some(None))
  {
    hide *;
    ReachTwoWaiting();
    ReachReplacingFirst();
    ReachLeftAlone();
    LeftAloneIs();
    StartIsRun();
    var a, b, c := [Enter, DialOk(0)] + [Enter] + [Enter], [DropHandle(0), Discard(0)], [ReplaceErr(0), Send(0)] + [Charge(0)];
    PlayConcat(ONE, a, b);
    PlayConcat(ONE, a + b, c);
    steps := a + b + c;
    states := PlayIsRun([ONE], [], steps);
    assert [] + steps == steps;
    RunLength(states, steps);
    OpenCountsLive(states, steps, |steps|);
  }

  lemma LeftAloneIs()
    ensures var s := LeftAlone();
            && s.waiters == [2] && NoServer(s) && s.open == -1 && s.failed == 1 && !s.closed && !s.draining
            && |s.tasks| == 3 && s.tasks[1] == Waiter(false, Some(None))
  {
  }

  // ---- ErrClosed from an open pool ----

  predicate Running(s: State) { !s.closed && !s.draining }

  // Nobody has been sent the nil that means ErrClosed, and Drain and Close are not under way.
  ghost predicate NoneMisled(s: State)
  {
    Running(s) ==> forall t :: 0 <= t < |s.tasks| ==>
      s.tasks[t] != Waiter(false, Some(None)) && !s.tasks[t].Notifying? && !s.tasks[t].Clearing?
  }

  // The nil of a failed replacement dial reaches a waiter that still listens.
  predicate Misleads(s: State, a: Step)
  {
    a.Send? && a.t < |s.tasks| && s.tasks[a.t].Sending? && s.tasks[a.t].msg.None? && Running(s) && Listening(s.tasks, s.tasks[a.t].ch)
  }

  lemma MisledStep(s: State, a: Step)
    requires Inv(s) && Enabled(s, a) && NoneMisled(s)
    ensures NoneMisled(Next(s, a)) <==> !Misleads(s, a)
  {
    StaysStopped(s, a);
    if Local(a) {
      MisledLocal(s, a);
    } else if a.Send? || a.Notify? {
      MisledSent(s, a);
    } else {
      hide Kept, Without, Inv;
    }
  }

  lemma MisledLocal(s: State, a: Step)
    requires Enabled(s, a) && Local(a) && NoneMisled(s) && Running(Next(s, a)) == Running(s)
    ensures NoneMisled(Next(s, a))
  {
    LocalStep(s, a);
    assert s.tasks[a.t].Waiter? ==> !Moved(s, a).Waiter?;
    hide Next;
  }

  lemma MisledSent(s: State, a: Step)
    requires Inv(s) && Enabled(s, a) && (a.Send? || a.Notify?) && NoneMisled(s) && Running(Next(s, a)) == Running(s)
    ensures NoneMisled(Next(s, a)) <==> !Misleads(s, a)
  {
    hide OwnersOk, CountsOk, QueuedOk, QueuesOk;
    SentTasks(s, a);
    SentLast(s, a);
    hide Next, TargetsOk, Enabled;
    var v, ch := Next(s, a), Targets(s.tasks[a.t])[0];
    if a.Send? && Running(s) {
      assert NoneMisled(v) <==> v.tasks[ch] != Waiter(false, Some(None));
    }
  }

  lemma SentLast(s: State, a: Step)
    requires TargetsOk(s.tasks) && Enabled(s, a) && (a.Send? || a.Notify?)
    ensures var v, ch := Next(s, a), Targets(s.tasks[a.t])[0];
            && ch < |v.tasks| == |s.tasks| && (a.Send? ==> !v.tasks[a.t].Waiter? && !v.tasks[a.t].Notifying? && !v.tasks[a.t].Clearing?)
            && (a.Send? ==> s.tasks[ch].Waiter? && v.tasks[ch] == s.tasks[ch].(inbox := Some(s.tasks[a.t].msg)) && s.tasks[a.t].ch == ch)
  {
  }

  lemma StaysStopped(s: State, a: Step)
    requires Enabled(s, a)
    ensures Running(Next(s, a)) ==> Running(s)
    ensures Local(a) || Moving(a) ==> Running(Next(s, a)) == Running(s)
  {
    hide Kept, Without, Deliver;
  }

  /** In a run, no waiter is told ErrClosed by an open pool exactly when no failed replacement dial
      reports to its waiter while the pool is open. */
  lemma ErrClosedExact(states: seq<State>, steps: seq<Step>)
    requires Run(states, steps)
    ensures (forall i :: 0 <= i < |states| ==> NoneMisled(states[i])) <==>
            (forall i :: 0 <= i < |steps| ==> !Misleads(states[i], steps[i]))
  {
    hide Next, Enabled, NoneMisled, Misleads;
    if forall i :: 0 <= i < |steps| ==> !Misleads(states[i], steps[i]) {
      forall i | 0 <= i < |states| ensures NoneMisled(states[i]) { NoneMisledAt(states, steps, i); }
    } else if forall i :: 0 <= i < |states| ==> NoneMisled(states[i]) {
      var i :| 0 <= i < |steps| && Misleads(states[i], steps[i]);
      RunKeepsInv(states, steps, i);
      MisledStep(states[i], steps[i]);
      assert states[i + 1] == Next(states[i], steps[i]);
    }
  }

  lemma {:induction false} NoneMisledAt(states: seq<State>, steps: seq<Step>, i: nat)
    requires Run(states, steps) && i < |states| && forall k :: 0 <= k < |steps| ==> !Misleads(states[k], steps[k])
    ensures NoneMisled(states[i])
  {
    hide Next, Enabled, Misleads;
    FreshStart(states, steps);
    if i > 0 {
      NoneMisledAt(states, steps, i - 1);
      RunKeepsInv(states, steps, i - 1);
      MisledStep(states[i - 1], steps[i - 1]);
    }
  }
}
