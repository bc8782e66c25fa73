/** What the pool's own counters do not guarantee: concrete runs past MaxConns, and the exact
    condition under which a stopped pool stays stopped. Also the in-place compaction loop of
    evictIdle. */
module PoolLimits {
  import opened Bytes
  import opened Pool

  // The state after a list of steps, if each is enabled in turn.
  function Play(s: State, steps: seq<Step>): Option<State>
    decreases |steps|
  {
    if steps == [] then Some(s)
    else if !Enabled(s, steps[0]) then None
    else Play(Next(s, steps[0]), steps[1..])
  }

  lemma RunGrows(states: seq<State>, steps: seq<Step>, a: Step)
    requires Run(states, steps) && Enabled(states[|states| - 1], a)
    ensures Run(states + [Next(states[|states| - 1], a)], steps + [a])
  {
    hide Enabled, Next;
  }

  lemma {:induction false} PlayConcat(s: State, a: seq<Step>, b: seq<Step>)
    requires Play(s, a).Some?
    ensures Play(s, a + b) == Play(Play(s, a).value, b)
    decreases |a|
  {
    hide Enabled, Next;
    if a == [] {
      assert a + b == b;
    } else {
      PlayConcat(Next(s, a[0]), a[1..], b);
      assert (a + b)[1..] == a[1..] + b;
    }
  }

  lemma {:induction false} PlayIsRun(states: seq<State>, before: seq<Step>, steps: seq<Step>) returns (all: seq<State>)
    requires Run(states, before) && Play(states[|states| - 1], steps).Some?
    ensures Run(all, before + steps) && Some(all[|all| - 1]) == Play(states[|states| - 1], steps) && all[0] == states[0]
    decreases |steps|
  {
    hide Enabled, Next;
    if steps == [] {
      assert before + steps == before;
      return states;
    }
    var s := states[|states| - 1];
    var longer := states + [Next(s, steps[0])];
    RunGrows(states, before, steps[0]);
    all := PlayIsRun(longer, before + [steps[0]], steps[1..]);
    assert before + [steps[0]] + steps[1..] == before + steps;
  }

  lemma PlayStep(s: State, a: Step, rest: seq<Step>)
    requires Enabled(s, a)
    ensures Play(s, [a] + rest) == Play(Next(s, a), rest)
  {
    assert ([a] + rest)[1..] == rest;
  }

  // ---- MaxConns can be exceeded ----

  const ONE := Start(1, 0)

  lemma StartOne()
    ensures ONE == State(1, 0, [], 0, 0, false, false, [], [], 0, 0, 0)
  {
    assert seq(0, i requires 0 <= i < 0 => i) == [];
  }

  // One handle out, one waiter, and the handle is discarded: the replacement dial reserves no slot.
  function ReplacingOne(): State
  {
    State(1, 0, [], 0, 0, false, false, [], [Replacing(1), Waiter(false, None)], 1, 0, 1)
  }

  lemma PlayTwo(s: State, a: Step, b: Step)
    requires Enabled(s, a) && Enabled(Next(s, a), b)
    ensures Play(s, [a, b]) == Some(Next(Next(s, a), b))
  {
    hide Enabled, Next;
    PlayStep(s, a, [b]);
    PlayStep(Next(s, a), b, []);
    assert [a, b] == [a] + [b] && [b] == [b] + [];
  }

  function HeldAndWaiting(): State
  {
    State(1, 0, [], 1, 1, false, false, [1], [Holding(0), Waiter(false, None)], 1, 0, 0)
  }

  lemma ReachHeld()
    ensures Play(ONE, [Enter, DialOk(0)] + [Enter]) == Some(HeldAndWaiting())
  {
    StartOne();
    var s1 := Next(ONE, Enter);
    assert s1 == State(1, 0, [], 1, 1, false, false, [], [Dialing], 0, 0, 0);
    var s2 := Next(s1, DialOk(0));
    assert s2 == State(1, 0, [], 1, 1, false, false, [], [Holding(0)], 1, 0, 0);
    assert Next(s2, Enter) == HeldAndWaiting();
    hide Next;
    PlayTwo(ONE, Enter, DialOk(0));
    PlayConcat(ONE, [Enter, DialOk(0)], [Enter]);
    assert Play(s2, [Enter]) == Play(Next(s2, Enter), [Enter][1..]);
  }

  lemma ReachReplacing()
    ensures Play(ONE, [Enter, DialOk(0)] + [Enter] + [DropHandle(0), Discard(0)]) == Some(ReplacingOne())
  {
    ReachHeld();
    var s3 := HeldAndWaiting();
    var s4 := Next(s3, DropHandle(0));
    assert s4 == State(1, 0, [], 1, 0, false, false, [1], [Discarding, Waiter(false, None)], 1, 0, 1);
    assert Next(s4, Discard(0)) == ReplacingOne();
    hide Next;
    PlayTwo(s3, DropHandle(0), Discard(0));
    PlayConcat(ONE, [Enter, DialOk(0)] + [Enter], [DropHandle(0), Discard(0)]);
  }

  /** With MaxConns 1: a new Acquire takes the slot while the replacement dials, and both land. */
  lemma OpenExceedsMax() returns (states: seq<State>, steps: seq<Step>)
    ensures Run(states, steps) && states[0] == Start(1, 0) && states[|steps|].open == 2
  {
    hide *;
    ReachReplacing();
    ReachLanded();
    StartIsRun();
    var before := [Enter, DialOk(0)] + [Enter] + [DropHandle(0), Discard(0)];
    PlayConcat(ONE, before, [Enter, ReplaceOk(0)]);
    steps := before + [Enter, ReplaceOk(0)];
    states := PlayIsRun([ONE], [], steps);
    assert [] + steps == steps;
    RunLength(states, steps);
  }

  lemma ReachLanded()
    ensures var v := Play(ReplacingOne(), [Enter, ReplaceOk(0)]); v.Some? && v.value.open == 2
  {
    var s := Next(ReplacingOne(), Enter);
    assert s == State(1, 0, [], 1, 1, false, false, [], [Replacing(1), Waiter(false, None), Dialing], 1, 0, 1);
    assert Next(s, ReplaceOk(0)).open == 2;
    hide Next;
    PlayTwo(ReplacingOne(), Enter, ReplaceOk(0));
    hide Play, ReplacingOne;
  }

  // The failed replacement dial has been charged a second time.
  function ChargedTwice(): State
  {
    State(1, 0, [], -1, 0, false, false, [], [Done, Waiter(false, Some(None))], 1, 1, 1)
  }

  lemma ReachCharged()
    ensures Play(ReplacingOne(), [ReplaceErr(0), Send(0)] + [Charge(0)]) == Some(ChargedTwice())
  {
    var s := ReplacingOne();
    var s1 := Next(s, ReplaceErr(0));
    assert s1 == State(1, 0, [], 0, 0, false, false, [], [Sending(1, None, true), Waiter(false, None)], 1, 0, 1);
    var s2 := Next(s1, Send(0));
    assert s2 == State(1, 0, [], 0, 0, false, false, [], [Owing, Waiter(false, Some(None))], 1, 0, 1);
    assert Next(s2, Charge(0)) == ChargedTwice();
    hide Next;
    PlayTwo(s, ReplaceErr(0), Send(0));
    PlayStep(s2, Charge(0), []);
    assert [Charge(0)] + [] == [Charge(0)];
    PlayConcat(s, [ReplaceErr(0), Send(0)], [Charge(0)]);
  }

  // Two dials under MaxConns 1.
  function TwoDials(): State
  {
    State(1, 0, [], 1, 2, false, false, [], [Done, Waiter(false, Some(None)), Dialing, Dialing], 1, 1, 1)
  }

  lemma ReachTwoDials()
    ensures Play(ChargedTwice(), [Enter, Enter]) == Some(TwoDials())
  {
    var s := Next(ChargedTwice(), Enter);
    assert [Done, Waiter(false, Some(None))] + [Dialing] == [Done, Waiter(false, Some(None)), Dialing];
    assert s == State(1, 0, [], 0, 1, false, false, [], [Done, Waiter(false, Some(None)), Dialing], 1, 1, 1);
    assert [Done, Waiter(false, Some(None)), Dialing] + [Dialing] == TwoDials().tasks;
    assert Next(s, Enter) == TwoDials();
    hide Next, Enabled, Play, ChargedTwice, TwoDials;
    EnterAnytime(ChargedTwice());
    EnterAnytime(s);
    PlayTwo(ChargedTwice(), Enter, Enter);
  }

  lemma EnterAnytime(s: State)
    ensures Enabled(s, Enter)
  {
  }

  /** With MaxConns 1: a failed replacement dial is charged twice, so open stays within the bound
      while two connections are live. */
  lemma LiveExceedsMax() returns (states: seq<State>, steps: seq<Step>)
    ensures Run(states, steps) && states[0] == Start(1, 0)
    ensures states[|steps|].open == 1 && Live(states[|steps|]) == 2
  {
    hide *;
    ReachReplacing();
    ReachCharged();
    ReachTwoDials();
    TwoDialsIs();
    StartIsRun();
    var a, b, c := [Enter, DialOk(0)] + [Enter] + [DropHandle(0), Discard(0)], [ReplaceErr(0), Send(0)] + [Charge(0)], [Enter, Enter];
    PlayConcat(ONE, a, b);
    PlayConcat(ONE, a + b, c);
    steps := a + b + c;
    states := PlayIsRun([ONE], [], steps);
    assert [] + steps == steps;
    RunLength(states, steps);
  }

  lemma TwoDialsIs()
    ensures Live(TwoDials()) == 2 && TwoDials().open == 1
  {
    TwoDialing();
    hide Total;
  }

  lemma StartIsRun()
    ensures Run([ONE], []) && ONE == Start(1, 0)
  {
  }

  lemma RunLength(states: seq<State>, steps: seq<Step>)
    requires Run(states, steps)
    ensures |states| == |steps| + 1
  {
  }

  lemma TwoDialing()
    ensures Total(Weight, [Done, Waiter(false, Some(None)), Dialing, Dialing]) == 2
  {
    var a, b, c, d := Done, Waiter(false, Some(None)), Dialing, Dialing;
    TotalSpawn(Weight, [], a);
    TotalSpawn(Weight, [a], b);
    TotalSpawn(Weight, [a, b], c);
    TotalSpawn(Weight, [a, b, c], d);
    assert [] + [a] == [a] && [a] + [b] == [a, b] && [a, b] + [c] == [a, b, c] && [a, b, c] + [d] == [a, b, c, d];
  }

  // ---- When Drain is really over ----

  predicate Listening(tasks: seq<Task>, ch: Chan)
  {
    ch < |tasks| && tasks[ch].Waiter? && !tasks[ch].cancelled
  }

  // A task that holds a handle now, or may still come to hold one.
  predicate Surfaces(s: State, x: Task)
  {
    match x
    case Holding(_) => true
    case Dialing => true
    case Received(_) => true
    case Waiter(cancelled, Some(Some(_))) => !cancelled
    case Sending(ch, Some(_), _) => Listening(s.tasks, ch)
    case Replacing(ch) => !s.closed && Listening(s.tasks, ch)
    case _ => false
  }

  ghost predicate Quiet(s: State)
  {
    (s.draining || s.closed) && forall t :: 0 <= t < |s.tasks| ==> !Surfaces(s, s.tasks[t])
  }

  lemma QuietAt(s: State, t: nat, x: Task, s': State)
    requires Quiet(s) && t < |s.tasks| && s'.tasks == s.tasks[t := x]
    requires (s'.draining || s'.closed) && (s.closed ==> s'.closed)
    requires !Surfaces(s', x) && !Listening(s'.tasks, t)
    ensures Quiet(s')
  {
  }

  lemma QuietSpawn(s: State, x: Task, s': State)
    requires Quiet(s) && s'.tasks == s.tasks + [x] && TargetsOk(s.tasks)
    requires (s'.draining || s'.closed) && (s.closed ==> s'.closed)
    requires !x.Waiter? && !Surfaces(s', x)
    ensures Quiet(s')
  {
  }

  lemma QuietDeliver(s: State, t: nat, ch: Chan, msg: Msg, x: Task, s': State)
    requires Quiet(s) && t < |s.tasks| && CanSend(s.tasks, ch) && t != ch && !s.tasks[t].Waiter?
    requires s'.tasks == Deliver(s.tasks, ch, msg)[t := x] && s'.draining == s.draining && s'.closed == s.closed
    requires msg.Some? ==> !Listening(s.tasks, ch)
    requires !x.Waiter? && !Surfaces(s', x)
    ensures Quiet(s')
  {
    assert forall c :: Listening(s'.tasks, c) ==> Listening(s.tasks, c);
  }

  lemma QuietLocal(s: State, a: Step)
    requires Quiet(s) && TargetsOk(s.tasks) && Enabled(s, a) && Local(a)
    ensures Quiet(Next(s, a))
  {
    LocalStep(s, a);
    assert !Surfaces(s, s.tasks[a.t]);
    if a.ReplaceOk? || a.ReplaceErr? {
      assert Targets(s.tasks[a.t]) == [s.tasks[a.t].ch];
    }
    QuietAt(s, a.t, Moved(s, a), Next(s, a));
  }

  lemma HeldSurfaces(s: State, t: nat)
    requires t < |s.tasks| && s.tasks[t].Holding?
    ensures !Quiet(s)
  {
    assert Surfaces(s, s.tasks[t]);
  }

  lemma QuietMoved(s: State, a: Step)
    requires Quiet(s) && TargetsOk(s.tasks) && QueuesOk(s) && Enabled(s, a) && Moving(a)
    ensures Quiet(Next(s, a))
  {
    hide TargetsOk, Without;
    var s' := Next(s, a);
    match a
    case Discard(t) => QuietAt(s, t, Done, s');
    case Cancel(t) => QuietAt(s, t, s.tasks[t].(cancelled := true), s');
    case Release(t) => HeldSurfaces(s, t);
    case Send(t) =>
      assert !Surfaces(s, s.tasks[t]);
      QuietDeliver(s, t, s.tasks[t].ch, s.tasks[t].msg, if s.tasks[t].owes then Owing else Done, s');
    case Notify(t) => QuietDeliver(s, t, s.tasks[t].targets[0], None, Notifying(s.tasks[t].targets[1..], s.tasks[t].drain), s');
  }

  lemma QuietSpawned(s: State, a: Step)
    requires Quiet(s) && TargetsOk(s.tasks) && QueuesOk(s) && Enabled(s, a) && !Local(a) && !Moving(a)
    ensures Quiet(Next(s, a))
  {
    hide TargetsOk, Kept;
    var s' := Next(s, a);
    match a
    case Drain => if !s.closed { QuietSpawn(s, Clearing(0, []), s'); }
    case Close => if !s.closed { QuietSpawn(s, Notifying([], false), s'); }
    case WaitIdle => QuietSpawn(s, Awaiting(false), s');
    case _ =>
  }

  lemma QuietKept(s: State, a: Step)
    requires Quiet(s) && Inv(s) && Enabled(s, a)
    ensures Quiet(Next(s, a))
  {
    hide OwnersOk, CountsOk, QueuesOk, TargetsOk, QueuedOk, Quiet, Next, Enabled;
    if Local(a) {
      QuietLocal(s, a);
    } else if Moving(a) {
      QuietMoved(s, a);
    } else {
      QuietSpawned(s, a);
    }
  }

  ghost predicate HandleOut(s: State) { exists t :: 0 <= t < |s.tasks| && s.tasks[t].Holding? }

  lemma {:induction false} QuietForever(s: State, steps: seq<Step>)
    requires Quiet(s) && Inv(s) && Play(s, steps).Some?
    ensures !HandleOut(Play(s, steps).value)
    decreases |steps|
  {
    if steps == [] {
      assert forall t :: 0 <= t < |s.tasks| ==> !Surfaces(s, s.tasks[t]);
    } else {
      hide Next, Enabled, Inv;
      QuietKept(s, steps[0]);
      InvNext(s, steps[0]);
      QuietForever(Next(s, steps[0]), steps[1..]);
    }
  }

  // Steps that bring a task's connection out as a handle.
  lemma Surface(s: State, t: nat) returns (steps: seq<Step>)
    requires Inv(s) && t < |s.tasks| && Surfaces(s, s.tasks[t])
    ensures Play(s, steps).Some? && HandleOut(Play(s, steps).value)
  {
    hide ChannelsOk, OwnersOk, QueuesOk, CountsOk, Inv;
    var x := s.tasks[t];
    if x.Holding? {
      return [];
    } else if x.Dialing? {
      steps := SurfaceOne(s, DialOk(t), t);
    } else if x.Received? {
      steps := SurfaceOne(s, Join(t), t);
    } else if x.Waiter? {
      var rest := SurfaceOne(Next(s, Receive(t)), Join(t), t);
      PlayStep(s, Receive(t), rest);
      steps := [Receive(t)] + rest;
    } else {
      steps := SurfaceSent(s, t);
    }
  }

  lemma SurfaceOne(s: State, a: Step, t: nat) returns (steps: seq<Step>)
    requires Enabled(s, a) && t < |Next(s, a).tasks| && Next(s, a).tasks[t].Holding?
    ensures Play(s, steps).Some? && HandleOut(Play(s, steps).value)
  {
    hide Next;
    steps := [a] + [];
    PlayStep(s, a, []);
  }

  lemma SurfaceSent(s: State, t: nat) returns (steps: seq<Step>)
    requires Inv(s) && t < |s.tasks| && Surfaces(s, s.tasks[t]) && (s.tasks[t].Sending? || s.tasks[t].Replacing?)
    ensures Play(s, steps).Some? && HandleOut(Play(s, steps).value)
  {
    hide OwnersOk, QueuesOk, CountsOk;
    var ch := s.tasks[t].ch;
    assert CanSend(s.tasks, ch) by { assert Targets(s.tasks[t])[0] == ch; }
    hide ChannelsOk, Inv;
    if s.tasks[t].Replacing? {
      var s1 := Next(s, ReplaceOk(t));
      steps := SurfaceLanded(s1, t);
      PlayStep(s, ReplaceOk(t), steps);
      steps := [ReplaceOk(t)] + steps;
    } else {
      steps := SurfaceLanded(s, t);
    }
  }

  lemma SurfaceLanded(s: State, t: nat) returns (steps: seq<Step>)
    requires t < |s.tasks| && s.tasks[t].Sending? && s.tasks[t].msg.Some?
    requires CanSend(s.tasks, s.tasks[t].ch) && Listening(s.tasks, s.tasks[t].ch)
    ensures Play(s, steps).Some? && HandleOut(Play(s, steps).value)
  {
    var ch := s.tasks[t].ch;
    var s1 := Next(s, Send(t));
    var s2 := Next(s1, Receive(ch));
    var rest := SurfaceOne(s2, Join(ch), ch);
    PlayStep(s1, Receive(ch), rest);
    PlayStep(s, Send(t), [Receive(ch)] + rest);
    steps := [Send(t)] + ([Receive(ch)] + rest);
  }

  /** A stopping pool can never again have a handle out, whatever happens next, exactly when no
      task still surfaces; inUse alone does not tell. */
  lemma StoppedForGood(s: State)
    requires Inv(s) && (s.draining || s.closed)
    ensures Quiet(s) <==> forall steps :: Play(s, steps).Some? ==> !HandleOut(Play(s, steps).value)
  {
    hide Inv, Play, HandleOut;
    if Quiet(s) {
      forall steps | Play(s, steps).Some? ensures !HandleOut(Play(s, steps).value) {
        QuietForever(s, steps);
      }
    } else {
      var t :| 0 <= t < |s.tasks| && Surfaces(s, s.tasks[t]);
      var steps := Surface(s, t);
    }
  }

  // ---- evictIdle ----

  /** Eviction drops stale entries only, keeps the order, keeps at least MinIdle of them if there
      are so many, and keeps a stale one only among the first MinIdle survivors. */
  lemma {:induction false} KeptExactly(idle: seq<Entry>, stale: set<Entry>, minIdle: int)
    ensures var k := Kept(idle, stale, minIdle);
            && (forall e :: e in idle && e !in stale ==> e in k) && (forall e :: e in k ==> e in idle)
            && (|idle| <= minIdle ==> k == idle) && (minIdle <= |idle| ==> minIdle <= |k|)
            && (forall i :: minIdle <= i < |k| && 0 <= i ==> k[i] !in stale)
  {
    if idle != [] { KeptExactly(idle[..|idle| - 1], stale, minIdle); }
  }

  lemma {:induction false} KeptInOrder(idle: seq<Entry>, stale: set<Entry>, minIdle: int, n: nat)
    requires n <= |idle|
    ensures Kept(idle[..n], stale, minIdle) <= Kept(idle, stale, minIdle)
    decreases |idle|
  {
    if n == |idle| {
      assert idle[..n] == idle;
    } else {
      var k := |idle| - 1;
      assert idle[..k][..n] == idle[..n];
      KeptInOrder(idle[..k], stale, minIdle, n);
    }
  }

  /** The compaction loop: survivors move to the front of the same array. */
  method EvictIdle(idle: array<Entry>, n: nat, stale: set<Entry>, minIdle: int, open: int)
    returns (kept: nat, open': int)
    requires n <= idle.Length
    modifies idle
    ensures kept <= n && idle[..kept] == Kept(old(idle[..n]), stale, minIdle)
    ensures open' == open - (n - kept)
  {
    kept, open' := 0, open;
    ghost var was := idle[..n];
    for i := 0 to n
      invariant kept <= i && open' == open - (i - kept)
      invariant idle[..kept] == Kept(was[..i], stale, minIdle)
      invariant forall k :: i <= k < n ==> idle[k] == was[k]
    {
      assert was[..i + 1][..i] == was[..i] && idle[i] == was[i];
      if idle[i] in stale && kept + 1 > minIdle {
        open' := open' - 1;
      } else {
        ghost var front := idle[..kept];
        idle[kept] := idle[i];
        assert idle[..kept + 1] == front + [was[i]];
        kept := kept + 1;
      }
    }
    assert was[..n] == was;
  }
}
