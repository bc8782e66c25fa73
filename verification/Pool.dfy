/** The connection pool, pg2json/pool/pool.go, as a transition system. Every lock-protected section
    and every channel operation is one step; goroutines interleave between steps. A task is one
    call (acquireOnce, Release, Discard, Drain, WaitIdle, Close) or one replacement-dial goroutine, at the
    point where it stands; a waiter channel is named by the acquireOnce task that created it. A
    goroutine asleep on idleCond remembers how many broadcasts there had been: it is woken by the
    next one. */
module Pool {
  import opened Bytes

  type Entry = nat

  type Chan = nat

  type Msg = Option<Entry>   // None is the nil that tells a waiter the pool is closed

  datatype Task =
    | Dialing                                        // acquireOnce: slot reserved, dial in progress
    | DialFailed                                     // dial failed, before inUse--
    | Discarding                                     // before the critical section of discard
    | Waiter(cancelled: bool, inbox: Option<Msg>)    // in select, or gone through ctx.Done
    | Received(entry: Entry)                         // took an entry, before inUse++
    | Holding(entry: Entry)                          // an unreleased handle
    | Closing                                        // put on a stopping pool, before open--
    | Replacing(ch: Chan)                            // goroutine of discard, dial in progress
    | Sending(ch: Chan, msg: Msg, owes: bool)        // before ch <- msg; owes: open-- comes after
    | Owing                                          // failed replacement, before open--
    | Clearing(count: nat, targets: seq<Chan>)       // Drain: idle closed, before open -= count
    | Notifying(targets: seq<Chan>, drain: bool)     // Drain (or Close): ch <- nil for each
    | Awaiting(drain: bool)                          // Drain (or WaitIdle): before looking at inUse
    | Parked(drain: bool, since: nat)                // in idleCond.Wait
    | Returned(drain: bool)                          // came back without an error
    | Done

  datatype State = State(max: int, minIdle: int, idle: seq<Entry>, open: int, inUse: int,
                         closed: bool, draining: bool, waiters: seq<Chan>, tasks: seq<Task>,
                         nextEntry: nat, failed: nat,  // failed: failed replacement dials charged so far
                         epoch: nat)                   // broadcasts on idleCond so far

  // New, after eager dialling of MinIdle connections.
  function Start(max: int, minIdle: int): State
  {
    var n := if minIdle > 0 then minIdle else 0;
    State(max, minIdle, seq(n, i requires 0 <= i < n => i), n, 0, false, false, [], [], n, 0, 0)
  }

  // ---- Steps ----

  datatype Step =
    | Enter | DialOk(t: nat) | DialErr(t: nat) | DialGiveUp(t: nat) | Discard(t: nat)
    | Receive(t: nat) | Cancel(t: nat) | Join(t: nat) | Release(t: nat) | CloseDone(t: nat) | DropHandle(t: nat)
    | ReplaceOk(t: nat) | ReplaceErr(t: nat) | Send(t: nat) | Charge(t: nat)
    | Drain | Clear(t: nat) | Notify(t: nat) | Await(t: nat) | Check(t: nat) | GiveUp(t: nat) | WaitIdle
    | Close | Evict(stale: set<Entry>)

  predicate Enabled(s: State, a: Step)
  {
    match a
    case Enter => true
    case DialOk(t) => t < |s.tasks| && s.tasks[t].Dialing?
    case DialErr(t) => t < |s.tasks| && s.tasks[t].Dialing?
    case DialGiveUp(t) => t < |s.tasks| && s.tasks[t].DialFailed?
    case Discard(t) => t < |s.tasks| && s.tasks[t].Discarding?
    case Receive(t) => t < |s.tasks| && s.tasks[t].Waiter? && !s.tasks[t].cancelled && s.tasks[t].inbox.Some?
    case Cancel(t) => t < |s.tasks| && s.tasks[t].Waiter? && !s.tasks[t].cancelled
    case Join(t) => t < |s.tasks| && s.tasks[t].Received?
    case Release(t) => t < |s.tasks| && s.tasks[t].Holding?
    case CloseDone(t) => t < |s.tasks| && s.tasks[t].Closing?
    case DropHandle(t) => t < |s.tasks| && s.tasks[t].Holding?
    case ReplaceOk(t) => t < |s.tasks| && s.tasks[t].Replacing?
    case ReplaceErr(t) => t < |s.tasks| && s.tasks[t].Replacing?
    case Send(t) => t < |s.tasks| && s.tasks[t].Sending? && CanSend(s.tasks, s.tasks[t].ch)
    case Charge(t) => t < |s.tasks| && s.tasks[t].Owing?
    case Drain => true
    case Clear(t) => t < |s.tasks| && s.tasks[t].Clearing?
    case Notify(t) => t < |s.tasks| && s.tasks[t].Notifying? && s.tasks[t].targets != [] && CanSend(s.tasks, s.tasks[t].targets[0])
    case Await(t) => t < |s.tasks| && s.tasks[t] == Notifying([], true)
    case Check(t) => t < |s.tasks| && (s.tasks[t].Awaiting? || (s.tasks[t].Parked? && s.tasks[t].since < s.epoch))
    case GiveUp(t) => t < |s.tasks| && (s.tasks[t].Awaiting? || s.tasks[t].Parked?)
    case WaitIdle => true
    case Close => true
    case Evict(_) => true
  }

  // A send proceeds when the one-slot channel is empty; otherwise the goroutine blocks.
  predicate CanSend(tasks: seq<Task>, ch: Chan)
  {
    ch < |tasks| && tasks[ch].Waiter? && tasks[ch].inbox.None?
  }

  function At(s: State, t: nat, x: Task): State
    requires t < |s.tasks|
  {
    s.(tasks := s.tasks[t := x])
  }

  function Spawn(s: State, x: Task): State { s.(tasks := s.tasks + [x]) }

  function Deliver(tasks: seq<Task>, ch: Chan, msg: Msg): seq<Task>
    requires CanSend(tasks, ch)
  {
    tasks[ch := tasks[ch].(inbox := Some(msg))]
  }

  // acquireOnce, first critical section
  function EnterStep(s: State): State
  {
    if s.closed || s.draining then s
    else if |s.idle| > 0 then
      var n := |s.idle| - 1;
      Spawn(s, Holding(s.idle[n])).(idle := s.idle[..n], inUse := s.inUse + 1)
    else if s.open < s.max then Spawn(s, Dialing).(open := s.open + 1, inUse := s.inUse + 1)
    else Spawn(s, Waiter(false, None)).(waiters := s.waiters + [|s.tasks|])
  }

  // discard
  function DiscardStep(s: State, t: nat): State
    requires t < |s.tasks|
  {
    if s.waiters == [] then At(s, t, Done).(open := s.open - 1)
    else At(s, t, Replacing(s.waiters[0])).(open := s.open - 1, waiters := s.waiters[1..])
  }

  // inUse--, with the broadcast at zero that put and Discard have and a failed dial has not
  function LowerInUse(s: State): State
  {
    s.(inUse := s.inUse - 1, epoch := if s.inUse == 1 then s.epoch + 1 else s.epoch)
  }

  // The loop condition of the goroutine that waits for inUse to reach zero.
  predicate KeepsWaiting(s: State, drain: bool) { s.inUse > 0 && (drain || !s.closed) }

  // put
  function ReleaseStep(s: State, t: nat): State
    requires t < |s.tasks| && s.tasks[t].Holding?
  {
    var e, s' := s.tasks[t].entry, LowerInUse(s);
    if s.closed || s.draining then At(s', t, Closing)
    else if s.waiters != [] then At(s', t, Sending(s.waiters[0], Some(e), false)).(waiters := s.waiters[1..])
    else At(s', t, Done).(idle := s.idle + [e])
  }

  function Without(ws: seq<Chan>, ch: Chan): seq<Chan>
  {
    if ws == [] then [] else if ws[0] == ch then ws[1..] else [ws[0]] + Without(ws[1..], ch)
  }

  // evictIdle: a stale entry goes unless keeping it is needed for MinIdle.
  function Kept(idle: seq<Entry>, stale: set<Entry>, minIdle: int): seq<Entry>
  {
    if idle == [] then []
    else
      var n := |idle| - 1;
      var keep := Kept(idle[..n], stale, minIdle);
      if idle[n] in stale && |keep| + 1 > minIdle then keep else keep + [idle[n]]
  }

  function Next(s: State, a: Step): State
    requires Enabled(s, a)
  {
    match a
    case Enter => EnterStep(s)
    case DialOk(t) => At(s, t, Holding(s.nextEntry)).(nextEntry := s.nextEntry + 1)
    case DialErr(t) => At(s, t, DialFailed)
    case DialGiveUp(t) => At(s, t, Discarding).(inUse := s.inUse - 1)
    case Discard(t) => DiscardStep(s, t)
    case Receive(t) =>
      var msg := s.tasks[t].inbox.value;
      if msg.None? then At(s, t, Done) else At(s, t, Received(msg.value))
    case Cancel(t) => At(s, t, s.tasks[t].(cancelled := true)).(waiters := Without(s.waiters, t))
    case Join(t) => At(s, t, Holding(s.tasks[t].entry)).(inUse := s.inUse + 1)
    case Release(t) => ReleaseStep(s, t)
    case CloseDone(t) => At(s, t, Done).(open := s.open - 1)
    case DropHandle(t) => At(LowerInUse(s), t, Discarding)
    case ReplaceOk(t) =>
      var ch := s.tasks[t].ch;
      if s.closed then At(s, t, Sending(ch, None, false))
      else At(s, t, Sending(ch, Some(s.nextEntry), false)).(open := s.open + 1, nextEntry := s.nextEntry + 1)
    case ReplaceErr(t) => At(s, t, Sending(s.tasks[t].ch, None, true))
    case Send(t) =>
      s.(tasks := Deliver(s.tasks, s.tasks[t].ch, s.tasks[t].msg)[t := if s.tasks[t].owes then Owing else Done])
    case Charge(t) =>
      if s.closed then At(s, t, Done) else At(s, t, Done).(open := s.open - 1, failed := s.failed + 1)
    case Drain =>
      if s.closed then s
      else Spawn(s, Clearing(|s.idle|, s.waiters)).(draining := true, idle := [], waiters := [])
    case Clear(t) => At(s, t, Notifying(s.tasks[t].targets, true)).(open := s.open - s.tasks[t].count)
    case Notify(t) =>
      s.(tasks := Deliver(s.tasks, s.tasks[t].targets[0], None)[t := Notifying(s.tasks[t].targets[1..], s.tasks[t].drain)])
    case Close =>
      if s.closed then s
      else Spawn(s, Notifying(s.waiters, false)).(closed := true, idle := [], waiters := [], epoch := s.epoch + 1)
    case Await(t) => At(s, t, Awaiting(true))
    case Check(t) =>
      var drain := s.tasks[t].drain;
      At(s, t, if KeepsWaiting(s, drain) then Parked(drain, s.epoch) else Returned(drain))
    case GiveUp(t) => At(s, t, Done).(epoch := s.epoch + 1)
    case WaitIdle => Spawn(s, Awaiting(false))
    case Evict(stale) =>
      var keep := Kept(s.idle, stale, s.minIdle);
      s.(idle := keep, open := s.open - (|s.idle| - |keep|))
  }

  // ---- Invariants ----

  // Channels a task has yet to send to.
  function Targets(x: Task): seq<Chan>
  {
    match x
    case Replacing(ch) => [ch]
    case Sending(ch, _, _) => [ch]
    case Clearing(_, ws) => ws
    case Notifying(ws, _) => ws
    case _ => []
  }

  // The entry a task is responsible for.
  function Owned(x: Task): Option<Entry>
  {
    match x
    case Received(e) => Some(e)
    case Holding(e) => Some(e)
    case Sending(_, msg, _) => msg
    case Waiter(_, Some(msg)) => msg
    case _ => None
  }

  // A channel in the queue is open, empty, and nobody is about to send to it.
  ghost predicate QueuedOk(tasks: seq<Task>, waiters: seq<Chan>)
  {
    && (forall i :: 0 <= i < |waiters| ==> waiters[i] < |tasks| && tasks[waiters[i]] == Waiter(false, None))
    && (forall i, j :: 0 <= i < j < |waiters| ==> waiters[i] != waiters[j])
    && (forall t, k :: 0 <= t < |tasks| && 0 <= k < |Targets(tasks[t])| ==> Targets(tasks[t])[k] !in waiters)
  }

  // At most one message is on its way to a channel, and the channel has room for it.
  ghost predicate TargetsOk(tasks: seq<Task>)
  {
    && (forall t, k :: 0 <= t < |tasks| && 0 <= k < |Targets(tasks[t])| ==> CanSend(tasks, Targets(tasks[t])[k]))
    && (forall t, k, u, l ::
          (0 <= t < |tasks| && 0 <= k < |Targets(tasks[t])| && 0 <= u < |tasks| && 0 <= l < |Targets(tasks[u])|
           && Targets(tasks[t])[k] == Targets(tasks[u])[l]) ==> t == u && k == l)
  }

  ghost predicate ChannelsOk(tasks: seq<Task>, waiters: seq<Chan>) { QueuedOk(tasks, waiters) && TargetsOk(tasks) }

  // Every entry has at most one owner: the idle stack, or one task.
  ghost predicate OwnersOk(tasks: seq<Task>, idle: seq<Entry>, next: nat)
  {
    && (forall i :: 0 <= i < |idle| ==> idle[i] < next)
    && (forall i, j :: 0 <= i < j < |idle| ==> idle[i] != idle[j])
    && (forall t :: 0 <= t < |tasks| && Owned(tasks[t]).Some? ==>
          Owned(tasks[t]).value < next && Owned(tasks[t]).value !in idle)
    && (forall t, u :: 0 <= t < u < |tasks| && Owned(tasks[t]).Some? ==> Owned(tasks[t]) != Owned(tasks[u]))
  }

  predicate QueuesOk(s: State)
  {
    && (s.waiters != [] ==> s.idle == [])
    && (s.draining || s.closed ==> s.idle == [] && s.waiters == [])
  }

  // Connections a task stands for that the counter open still has to account for.
  function Weight(x: Task): nat
  {
    match x
    case Dialing => 1
    case DialFailed => 1
    case Discarding => 1
    case Closing => 1
    case Clearing(n, _) => n
    case _ => if Owned(x).Some? then 1 else 0
  }

  // Handles out, as the counter inUse sees them.
  function InHand(x: Task): nat { if x.Dialing? || x.DialFailed? || x.Holding? then 1 else 0 }

  function Total(f: Task -> nat, tasks: seq<Task>): nat
  {
    if tasks == [] then 0 else Total(f, tasks[..|tasks| - 1]) + f(tasks[|tasks| - 1])
  }

  function Live(s: State): nat { |s.idle| + Total(Weight, s.tasks) }

  ghost predicate CountsOk(s: State)
  {
    && s.inUse == Total(InHand, s.tasks)
    && (!s.closed ==> Live(s) == s.open + s.failed)
  }

  // ---- Channels ----

  // A task that is not a live waiter moves on, dropping some of the channels it had to notify.
  lemma ChannelsAt(tasks: seq<Task>, waiters: seq<Chan>, t: nat, x: Task, drop: nat)
    requires ChannelsOk(tasks, waiters) && t < |tasks|
    requires tasks[t].Waiter? ==> tasks[t].inbox.Some?
    requires drop <= |Targets(tasks[t])| && Targets(x) == Targets(tasks[t])[drop..]
    ensures ChannelsOk(tasks[t := x], waiters)
  {
    hide Targets;
    assert forall k :: 0 <= k < |Targets(x)| ==> Targets(x)[k] == Targets(tasks[t])[k + drop];
  }

  lemma ChannelsSpawn(tasks: seq<Task>, waiters: seq<Chan>, x: Task)
    requires ChannelsOk(tasks, waiters) && Targets(x) == []
    ensures ChannelsOk(tasks + [x], waiters)
  {
    hide Targets;
  }

  // put and discard: the head of the queue becomes a task's target.
  lemma ChannelsPop(tasks: seq<Task>, waiters: seq<Chan>, t: nat, x: Task)
    requires ChannelsOk(tasks, waiters) && t < |tasks| && waiters != []
    requires !tasks[t].Waiter? && Targets(tasks[t]) == [] && Targets(x) == [waiters[0]]
    ensures ChannelsOk(tasks[t := x], waiters[1..])
  {
    hide Targets;
    assert forall i :: 0 <= i < |waiters| - 1 ==> waiters[1..][i] == waiters[i + 1];
  }

  // Drain and Close: the whole queue becomes a new task's targets.
  lemma ChannelsTakeAll(tasks: seq<Task>, waiters: seq<Chan>, x: Task)
    requires ChannelsOk(tasks, waiters) && Targets(x) == waiters
    ensures ChannelsOk(tasks + [x], [])
  {
    hide Targets;
  }

  // acquireOnce: a new channel joins the queue.
  lemma ChannelsQueue(tasks: seq<Task>, waiters: seq<Chan>)
    requires ChannelsOk(tasks, waiters)
    ensures ChannelsOk(tasks + [Waiter(false, None)], waiters + [|tasks|])
  {
    var tasks' := tasks + [Waiter(false, None)];
    ChannelsSpawn(tasks, waiters, Waiter(false, None));
    assert Targets(tasks'[|tasks|]) == [];
    hide Targets;
    assert forall t, k :: 0 <= t < |tasks| && 0 <= k < |Targets(tasks[t])| ==> Targets(tasks[t])[k] < |tasks|;
  }

  // A message lands: its target is used up.
  lemma ChannelsDeliver(tasks: seq<Task>, waiters: seq<Chan>, t: nat, msg: Msg, x: Task)
    requires ChannelsOk(tasks, waiters) && t < |tasks| && Targets(tasks[t]) != [] && CanSend(tasks, Targets(tasks[t])[0])
    requires Targets(x) == Targets(tasks[t])[1..]
    ensures ChannelsOk(Deliver(tasks, Targets(tasks[t])[0], msg)[t := x], waiters)
  {
    var ch := Targets(tasks[t])[0];
    var mid := tasks[t := x];
    assert ch !in waiters && ch != t;
    ChannelsAt(tasks, waiters, t, x, 1);
    assert Untargeted(mid, ch) by {
      hide Targets;
      assert forall k :: 0 <= k < |Targets(x)| ==> Targets(x)[k] == Targets(tasks[t])[k + 1];
    }
    ChannelsFill(mid, waiters, ch, msg);
    assert Deliver(tasks, ch, msg)[t := x] == Deliver(mid, ch, msg);
  }

  ghost predicate Untargeted(tasks: seq<Task>, ch: Chan)
  {
    forall u, k :: 0 <= u < |tasks| && 0 <= k < |Targets(tasks[u])| ==> Targets(tasks[u])[k] != ch
  }

  lemma ChannelsFill(tasks: seq<Task>, waiters: seq<Chan>, ch: Chan, msg: Msg)
    requires ChannelsOk(tasks, waiters) && CanSend(tasks, ch) && ch !in waiters && Untargeted(tasks, ch)
    ensures ChannelsOk(Deliver(tasks, ch, msg), waiters)
  {
    var tasks' := Deliver(tasks, ch, msg);
    assert forall c :: CanSend(tasks, c) && c != ch ==> CanSend(tasks', c);
    ChannelsSame(tasks, tasks', waiters);
  }

  lemma {:induction false} WithoutIs(ws: seq<Chan>, ch: Chan)
    requires forall i, j :: 0 <= i < j < |ws| ==> ws[i] != ws[j]
    ensures forall c :: c in Without(ws, ch) <==> c in ws && c != ch
    ensures forall i, j :: 0 <= i < j < |Without(ws, ch)| ==> Without(ws, ch)[i] != Without(ws, ch)[j]
  {
    if ws != [] {
      assert ws == [ws[0]] + ws[1..] && ws[0] !in ws[1..];
      if ws[0] != ch {
        WithoutIs(ws[1..], ch);
        assert ws[0] !in Without(ws[1..], ch);
      }
    }
  }

  lemma ChannelsShrink(tasks: seq<Task>, waiters: seq<Chan>, sub: seq<Chan>)
    requires ChannelsOk(tasks, waiters) && (forall c :: c in sub ==> c in waiters)
    requires forall i, j :: 0 <= i < j < |sub| ==> sub[i] != sub[j]
    ensures ChannelsOk(tasks, sub)
  {
    hide Targets;
    assert forall i :: 0 <= i < |sub| ==> sub[i] in sub;
  }

  // Only a channel's own state changes, and those still to be sent to keep their room.
  lemma ChannelsSame(tasks: seq<Task>, tasks': seq<Task>, waiters: seq<Chan>)
    requires ChannelsOk(tasks, waiters) && |tasks'| == |tasks|
    requires forall u :: 0 <= u < |tasks| ==> Targets(tasks'[u]) == Targets(tasks[u])
    requires forall i :: 0 <= i < |waiters| ==> waiters[i] < |tasks| && tasks'[waiters[i]] == tasks[waiters[i]]
    requires forall u, k :: 0 <= u < |tasks| && 0 <= k < |Targets(tasks[u])| ==> CanSend(tasks', Targets(tasks[u])[k])
    ensures ChannelsOk(tasks', waiters)
  {
    hide Targets, CanSend;
  }

  lemma ChannelsFlag(tasks: seq<Task>, waiters: seq<Chan>, t: nat)
    requires ChannelsOk(tasks, waiters) && t < |tasks| && tasks[t].Waiter? && t !in waiters
    ensures ChannelsOk(tasks[t := tasks[t].(cancelled := true)], waiters)
  {
    var tasks' := tasks[t := tasks[t].(cancelled := true)];
    assert forall c :: CanSend(tasks, c) ==> CanSend(tasks', c);
    ChannelsSame(tasks, tasks', waiters);
  }

  // ctx.Done: the waiter leaves the queue if it is still there; its channel stays.
  lemma ChannelsCancel(tasks: seq<Task>, waiters: seq<Chan>, t: nat)
    requires ChannelsOk(tasks, waiters) && t < |tasks| && tasks[t].Waiter?
    ensures ChannelsOk(tasks[t := tasks[t].(cancelled := true)], Without(waiters, t))
  {
    WithoutIs(waiters, t);
    hide *;
    ChannelsShrink(tasks, waiters, Without(waiters, t));
    ChannelsFlag(tasks, Without(waiters, t), t);
  }

  // Steps that only move one task on, keeping the channels it still has to notify.
  predicate Local(a: Step)
  {
    a.DialOk? || a.DialErr? || a.DialGiveUp? || a.Receive? || a.Join? || a.CloseDone? || a.DropHandle?
    || a.ReplaceOk? || a.ReplaceErr? || a.Charge? || a.Clear? || a.Await? || a.Check? || a.GiveUp?
  }

  // Steps that pass a connection or a message on.
  predicate Moving(a: Step) { a.Discard? || a.Cancel? || a.Release? || a.Send? || a.Notify? }

  // Where a local step takes its task.
  function Moved(s: State, a: Step): Task
    requires Local(a) && Enabled(s, a)
  {
    var x := s.tasks[a.t];
    match a
    case DialOk(_) => Holding(s.nextEntry)
    case DialErr(_) => DialFailed
    case Receive(_) => if x.inbox.value.None? then Done else Received(x.inbox.value.value)
    case Join(_) => Holding(x.entry)
    case ReplaceOk(_) => Sending(x.ch, if s.closed then None else Some(s.nextEntry), false)
    case ReplaceErr(_) => Sending(x.ch, None, true)
    case Clear(_) => Notifying(x.targets, true)
    case Await(_) => Awaiting(true)
    case Check(_) => if KeepsWaiting(s, x.drain) then Parked(x.drain, s.epoch) else Returned(x.drain)
    case DialGiveUp(_) => Discarding
    case DropHandle(_) => Discarding
    case _ => Done
  }

  lemma LocalStep(s: State, a: Step)
    requires Local(a) && Enabled(s, a)
    ensures Next(s, a).tasks == s.tasks[a.t := Moved(s, a)] && Next(s, a).waiters == s.waiters && Next(s, a).idle == s.idle
    ensures Targets(Moved(s, a)) == Targets(s.tasks[a.t])
    ensures s.tasks[a.t].Waiter? ==> s.tasks[a.t].inbox.Some?
  {
  }

  lemma ChannelsKept(s: State, a: Step)
    requires ChannelsOk(s.tasks, s.waiters) && Enabled(s, a)
    ensures ChannelsOk(Next(s, a).tasks, Next(s, a).waiters)
  {
    if Local(a) {
      LocalStep(s, a);
      hide *;
      ChannelsAt(s.tasks, s.waiters, a.t, Moved(s, a), 0);
    } else if Moving(a) {
      hide ChannelsOk, Enabled, Next;
      ChannelsMoved(s, a);
    } else {
      hide ChannelsOk, Enabled, Next;
      ChannelsSpawned(s, a);
    }
  }

  lemma ChannelsMoved(s: State, a: Step)
    requires ChannelsOk(s.tasks, s.waiters) && Enabled(s, a) && Moving(a)
    ensures ChannelsOk(Next(s, a).tasks, Next(s, a).waiters)
  {
    hide ChannelsOk, Without;
    var ts, ws := s.tasks, s.waiters;
    match a
    case Discard(t) =>
      if ws == [] { ChannelsAt(ts, ws, t, Done, 0); } else { ChannelsPop(ts, ws, t, Replacing(ws[0])); }
    case Cancel(t) => ChannelsCancel(ts, ws, t);
    case Release(t) =>
      if s.closed || s.draining {
        ChannelsAt(ts, ws, t, Closing, 0);
      } else if ws != [] {
        ChannelsPop(ts, ws, t, Sending(ws[0], Some(ts[t].entry), false));
      } else {
        ChannelsAt(ts, ws, t, Done, 0);
      }
    case Send(t) => ChannelsDeliver(ts, ws, t, ts[t].msg, if ts[t].owes then Owing else Done);
    case Notify(t) => ChannelsDeliver(ts, ws, t, None, Notifying(ts[t].targets[1..], ts[t].drain));
  }

  lemma ChannelsSpawned(s: State, a: Step)
    requires ChannelsOk(s.tasks, s.waiters) && Enabled(s, a) && !Local(a) && !Moving(a)
    ensures ChannelsOk(Next(s, a).tasks, Next(s, a).waiters)
  {
    hide ChannelsOk, Kept;
    var ts, ws := s.tasks, s.waiters;
    match a
    case Enter =>
      if s.closed || s.draining {
      } else if |s.idle| > 0 {
        ChannelsSpawn(ts, ws, Holding(s.idle[|s.idle| - 1]));
      } else if s.open < s.max {
        ChannelsSpawn(ts, ws, Dialing);
      } else {
        ChannelsQueue(ts, ws);
      }
    case Drain => ChannelsTakeAll(ts, ws, Clearing(|s.idle|, ws));
    case WaitIdle => ChannelsSpawn(ts, ws, Awaiting(false));
    case Close => ChannelsTakeAll(ts, ws, Notifying(ws, false));
    case Evict(_) =>
  }

  // ---- Owners ----

  // A task keeps its entry or lets go of it.
  lemma OwnersAt(tasks: seq<Task>, idle: seq<Entry>, next: nat, t: nat, x: Task)
    requires OwnersOk(tasks, idle, next) && t < |tasks| && (Owned(x).None? || Owned(x) == Owned(tasks[t]))
    ensures OwnersOk(tasks[t := x], idle, next)
  {
    hide Owned;
  }

  // A task takes charge of a newly dialled connection.
  lemma OwnersNew(tasks: seq<Task>, idle: seq<Entry>, next: nat, t: nat, x: Task)
    requires OwnersOk(tasks, idle, next) && t < |tasks| && Owned(x) == Some(next)
    ensures OwnersOk(tasks[t := x], idle, next + 1)
  {
    hide Owned;
  }

  lemma OwnersSpawn(tasks: seq<Task>, idle: seq<Entry>, next: nat, x: Task)
    requires OwnersOk(tasks, idle, next) && Owned(x).None?
    ensures OwnersOk(tasks + [x], idle, next)
  {
    hide Owned;
  }

  // acquireOnce pops the idle stack.
  lemma OwnersTake(tasks: seq<Task>, idle: seq<Entry>, next: nat, x: Task)
    requires OwnersOk(tasks, idle, next) && idle != [] && Owned(x) == Some(idle[|idle| - 1])
    ensures OwnersOk(tasks + [x], idle[..|idle| - 1], next)
  {
    hide Owned;
    var n := |idle| - 1;
    assert forall e :: e in idle[..n] ==> e in idle && e != idle[n];
  }

  // put pushes onto the idle stack.
  lemma OwnersReturn(tasks: seq<Task>, idle: seq<Entry>, next: nat, t: nat, x: Task)
    requires OwnersOk(tasks, idle, next) && t < |tasks| && Owned(tasks[t]).Some? && Owned(x).None?
    ensures OwnersOk(tasks[t := x], idle + [Owned(tasks[t]).value], next)
  {
    hide Owned;
  }

  // A message moves its entry from the sender to the channel.
  lemma OwnersDeliver(tasks: seq<Task>, idle: seq<Entry>, next: nat, t: nat, ch: Chan, msg: Msg, x: Task)
    requires OwnersOk(tasks, idle, next) && t < |tasks| && CanSend(tasks, ch) && t != ch
    requires Owned(x).None? && (msg.None? || Owned(tasks[t]) == msg)
    ensures OwnersOk(Deliver(tasks, ch, msg)[t := x], idle, next)
  {
    assert Owned(tasks[ch]).None? && Owned(Deliver(tasks, ch, msg)[ch]) == msg;
    hide Owned;
  }

  lemma {:induction false} KeptIs(idle: seq<Entry>, stale: set<Entry>, minIdle: int)
    requires forall i, j :: 0 <= i < j < |idle| ==> idle[i] != idle[j]
    ensures var k := Kept(idle, stale, minIdle);
            && |k| <= |idle| && (forall e :: e in k ==> e in idle)
            && (forall i, j :: 0 <= i < j < |k| ==> k[i] != k[j])
  {
    if idle != [] {
      var n := |idle| - 1;
      KeptIs(idle[..n], stale, minIdle);
      assert forall e :: e in idle[..n] ==> e in idle && e != idle[n];
      assert idle[n] !in Kept(idle[..n], stale, minIdle);
    }
  }

  lemma OwnersEvict(tasks: seq<Task>, idle: seq<Entry>, next: nat, keep: seq<Entry>)
    requires OwnersOk(tasks, idle, next) && (forall e :: e in keep ==> e in idle)
    requires forall i, j :: 0 <= i < j < |keep| ==> keep[i] != keep[j]
    ensures OwnersOk(tasks, keep, next)
  {
    hide Owned;
    assert forall i :: 0 <= i < |keep| ==> keep[i] in keep;
  }

  lemma OwnersKeptLocal(s: State, a: Step)
    requires OwnersOk(s.tasks, s.idle, s.nextEntry) && Enabled(s, a) && Local(a)
    ensures OwnersOk(Next(s, a).tasks, Next(s, a).idle, Next(s, a).nextEntry)
  {
    hide OwnersOk;
    LocalStep(s, a);
    if a.DialOk? || (a.ReplaceOk? && !s.closed) {
      OwnersNew(s.tasks, s.idle, s.nextEntry, a.t, Moved(s, a));
    } else {
      OwnersAt(s.tasks, s.idle, s.nextEntry, a.t, Moved(s, a));
    }
  }

  lemma OwnersMoved(s: State, a: Step)
    requires OwnersOk(s.tasks, s.idle, s.nextEntry) && Enabled(s, a) && Moving(a)
    ensures OwnersOk(Next(s, a).tasks, Next(s, a).idle, Next(s, a).nextEntry)
  {
    hide OwnersOk, Without;
    var ts, idle, n := s.tasks, s.idle, s.nextEntry;
    match a
    case Discard(t) => OwnersAt(ts, idle, n, t, if s.waiters == [] then Done else Replacing(s.waiters[0]));
    case Cancel(t) => OwnersAt(ts, idle, n, t, ts[t].(cancelled := true));
    case Release(t) =>
      if s.closed || s.draining {
        OwnersAt(ts, idle, n, t, Closing);
      } else if s.waiters != [] {
        OwnersAt(ts, idle, n, t, Sending(s.waiters[0], Some(ts[t].entry), false));
      } else {
        OwnersReturn(ts, idle, n, t, Done);
      }
    case Send(t) => OwnersDeliver(ts, idle, n, t, ts[t].ch, ts[t].msg, if ts[t].owes then Owing else Done);
    case Notify(t) => OwnersDeliver(ts, idle, n, t, ts[t].targets[0], None, Notifying(ts[t].targets[1..], ts[t].drain));
  }

  lemma OwnersSpawned(s: State, a: Step)
    requires OwnersOk(s.tasks, s.idle, s.nextEntry) && Enabled(s, a) && !Local(a) && !Moving(a)
    ensures OwnersOk(Next(s, a).tasks, Next(s, a).idle, Next(s, a).nextEntry)
  {
    var ts, idle, n := s.tasks, s.idle, s.nextEntry;
    if a.Evict? {
      KeptIs(idle, a.stale, s.minIdle);
      OwnersEvict(ts, idle, n, Kept(idle, a.stale, s.minIdle));
      return;
    }
    hide OwnersOk, Kept;
    match a
    case Enter =>
      if s.closed || s.draining {
      } else if |idle| > 0 {
        OwnersTake(ts, idle, n, Holding(idle[|idle| - 1]));
      } else if s.open < s.max {
        OwnersSpawn(ts, idle, n, Dialing);
      } else {
        OwnersSpawn(ts, idle, n, Waiter(false, None));
      }
    case WaitIdle => OwnersSpawn(ts, idle, n, Awaiting(false));
    case Drain =>
      OwnersSpawn(ts, idle, n, Clearing(|idle|, s.waiters));
      OwnersEvict(ts + [Clearing(|idle|, s.waiters)], idle, n, []);
    case Close =>
      OwnersSpawn(ts, idle, n, Notifying(s.waiters, false));
      OwnersEvict(ts + [Notifying(s.waiters, false)], idle, n, []);
  }

  lemma OwnersKept(s: State, a: Step)
    requires OwnersOk(s.tasks, s.idle, s.nextEntry) && Enabled(s, a)
    ensures OwnersOk(Next(s, a).tasks, Next(s, a).idle, Next(s, a).nextEntry)
  {
    hide OwnersOk, Enabled, Next;
    if Local(a) {
      OwnersKeptLocal(s, a);
    } else if Moving(a) {
      OwnersMoved(s, a);
    } else {
      OwnersSpawned(s, a);
    }
  }

  // ---- Queues ----

  lemma {:induction false} KeptNothing(idle: seq<Entry>, stale: set<Entry>, minIdle: int)
    ensures |Kept(idle, stale, minIdle)| <= |idle|
  {
    if idle != [] {
      KeptNothing(idle[..|idle| - 1], stale, minIdle);
    }
  }

  /** Waiters and idle connections never coexist, and a stopping pool has neither. */
  lemma QueuesKept(s: State, a: Step)
    requires QueuesOk(s) && Enabled(s, a)
    ensures QueuesOk(Next(s, a))
  {
    if Local(a) {
      LocalQueues(s, a);
    } else if a.Evict? {
      KeptNothing(s.idle, a.stale, s.minIdle);
    } else if a.Send? || a.Notify? {
      hide Deliver;
    }
  }

  lemma LocalQueues(s: State, a: Step)
    requires Local(a) && Enabled(s, a) && QueuesOk(s)
    ensures QueuesOk(Next(s, a))
  {
  }

  // ---- Counts ----

  lemma {:induction false} TotalAt(f: Task -> nat, tasks: seq<Task>, t: nat, x: Task)
    requires t < |tasks|
    ensures Total(f, tasks[t := x]) == Total(f, tasks) - f(tasks[t]) + f(x)
  {
    var n := |tasks| - 1;
    if t < n {
      TotalAt(f, tasks[..n], t, x);
      assert tasks[t := x][..n] == tasks[..n][t := x];
    } else {
      assert tasks[t := x][..n] == tasks[..n];
    }
  }

  lemma TotalSpawn(f: Task -> nat, tasks: seq<Task>, x: Task)
    ensures Total(f, tasks + [x]) == Total(f, tasks) + f(x)
  {
    assert (tasks + [x])[..|tasks|] == tasks;
  }

  lemma CountsAt(s: State, t: nat, x: Task)
    requires t < |s.tasks|
    ensures Total(Weight, s.tasks[t := x]) == Total(Weight, s.tasks) - Weight(s.tasks[t]) + Weight(x)
    ensures Total(InHand, s.tasks[t := x]) == Total(InHand, s.tasks) - InHand(s.tasks[t]) + InHand(x)
  {
    TotalAt(Weight, s.tasks, t, x);
    TotalAt(InHand, s.tasks, t, x);
  }

  lemma CountsSpawn(s: State, x: Task)
    ensures Total(Weight, s.tasks + [x]) == Total(Weight, s.tasks) + Weight(x)
    ensures Total(InHand, s.tasks + [x]) == Total(InHand, s.tasks) + InHand(x)
  {
    TotalSpawn(Weight, s.tasks, x);
    TotalSpawn(InHand, s.tasks, x);
  }

  lemma CountsDeliver(s: State, t: nat, ch: Chan, msg: Msg, x: Task)
    requires t < |s.tasks| && CanSend(s.tasks, ch) && t != ch
    ensures var ts := Deliver(s.tasks, ch, msg)[t := x];
            && Total(Weight, ts) == Total(Weight, s.tasks) - Weight(s.tasks[t]) + Weight(x) + (if msg.Some? then 1 else 0)
            && Total(InHand, ts) == Total(InHand, s.tasks) - InHand(s.tasks[t]) + InHand(x)
  {
    var y := s.tasks[ch].(inbox := Some(msg));
    assert Weight(s.tasks[ch]) == 0 && InHand(s.tasks[ch]) == 0 && InHand(y) == 0 && Weight(y) == if msg.Some? then 1 else 0;
    CountsAt(s, ch, y);
    CountsAt(s.(tasks := s.tasks[ch := y]), t, x);
  }

  // What a local step does to the counters is what it does to its task.
  lemma LocalCounts(s: State, a: Step)
    requires Enabled(s, a) && Local(a)
    ensures var v, x, y := Next(s, a), s.tasks[a.t], Moved(s, a);
            && v.inUse == s.inUse - InHand(x) + InHand(y) && v.closed == s.closed
            && (!s.closed ==> v.open + v.failed == s.open + s.failed - Weight(x) + Weight(y))
  {
  }

  lemma CountsKeptLocal(s: State, a: Step)
    requires CountsOk(s) && Enabled(s, a) && Local(a)
    ensures CountsOk(Next(s, a))
  {
    LocalStep(s, a);
    LocalCounts(s, a);
    CountsAt(s, a.t, Moved(s, a));
    hide Total, Next, Enabled, Moved, Weight, InHand;
  }

  lemma CountsKeptQueue(s: State, a: Step)
    requires CountsOk(s) && Enabled(s, a) && (a.Enter? || a.Drain? || a.Close? || a.Evict? || a.WaitIdle?)
    ensures CountsOk(Next(s, a))
  {
    hide Total, Kept;
    match a
    case Enter =>
      if |s.idle| > 0 { CountsSpawn(s, Holding(s.idle[|s.idle| - 1])); }
      CountsSpawn(s, Dialing);
      CountsSpawn(s, Waiter(false, None));
    case Drain => CountsSpawn(s, Clearing(|s.idle|, s.waiters));
    case Close => CountsSpawn(s, Notifying(s.waiters, false));
    case WaitIdle => CountsSpawn(s, Awaiting(false));
    case Evict(_) =>
  }

  lemma CountsKeptSend(s: State, a: Step)
    requires CountsOk(s) && Enabled(s, a) && (a.Send? || a.Notify?)
    ensures CountsOk(Next(s, a))
  {
    hide Total;
    match a
    case Send(t) => CountsDeliver(s, t, s.tasks[t].ch, s.tasks[t].msg, if s.tasks[t].owes then Owing else Done);
    case Notify(t) => CountsDeliver(s, t, s.tasks[t].targets[0], None, Notifying(s.tasks[t].targets[1..], s.tasks[t].drain));
  }

  lemma CountsKeptMove(s: State, a: Step)
    requires CountsOk(s) && Enabled(s, a) && (a.Discard? || a.Cancel? || a.Release?)
    ensures CountsOk(Next(s, a))
  {
    hide Total, Without;
    match a
    case Discard(t) => CountsAt(s, t, if s.waiters == [] then Done else Replacing(s.waiters[0]));
    case Cancel(t) => CountsAt(s, t, s.tasks[t].(cancelled := true));
    case Release(t) =>
      if s.closed || s.draining {
        CountsAt(s, t, Closing);
      } else if s.waiters != [] {
        CountsAt(s, t, Sending(s.waiters[0], Some(s.tasks[t].entry), false));
      } else {
        CountsAt(s, t, Done);
      }
  }

  lemma CountsKept(s: State, a: Step)
    requires CountsOk(s) && Enabled(s, a)
    ensures CountsOk(Next(s, a))
  {
    hide CountsOk, Enabled, Next;
    if Local(a) {
      CountsKeptLocal(s, a);
    } else if a.Send? || a.Notify? {
      CountsKeptSend(s, a);
    } else if Moving(a) {
      CountsKeptMove(s, a);
    } else {
      CountsKeptQueue(s, a);
    }
  }

  // ---- Runs ----

  ghost predicate Inv(s: State)
  {
    ChannelsOk(s.tasks, s.waiters) && OwnersOk(s.tasks, s.idle, s.nextEntry) && QueuesOk(s) && CountsOk(s)
  }

  // states[0] is a fresh pool and each step leads from one state to the next.
  ghost predicate Run(states: seq<State>, steps: seq<Step>)
  {
    && |states| == |steps| + 1
    && (exists max, minIdle :: states[0] == Start(max, minIdle))
    && (forall i :: 0 <= i < |steps| ==> Enabled(states[i], steps[i]) && states[i + 1] == Next(states[i], steps[i]))
  }

  lemma StartOk(max: int, minIdle: int)
    ensures Inv(Start(max, minIdle))
  {
  }

  lemma InvNext(s: State, a: Step)
    requires Inv(s) && Enabled(s, a)
    ensures Inv(Next(s, a))
  {
    hide ChannelsOk, OwnersOk, QueuesOk, CountsOk, Next;
    ChannelsKept(s, a);
    OwnersKept(s, a);
    QueuesKept(s, a);
    CountsKept(s, a);
  }

  lemma StartInv(states: seq<State>, steps: seq<Step>)
    requires Run(states, steps)
    ensures Inv(states[0])
  {
    hide Next, Enabled, Inv;
    var max, minIdle :| states[0] == Start(max, minIdle);
    StartOk(max, minIdle);
  }

  /** Every state of every run, under any interleaving, satisfies the invariant. */
  lemma {:induction false} RunKeepsInv(states: seq<State>, steps: seq<Step>, i: nat)
    requires Run(states, steps) && i < |states|
    ensures Inv(states[i])
  {
    hide Next, Enabled, Inv;
    if i == 0 {
      StartInv(states, steps);
    } else {
      RunKeepsInv(states, steps, i - 1);
      InvNext(states[i - 1], steps[i - 1]);
    }
  }

  // ---- What the invariant means for a run ----

  /** No goroutine ever blocks on a channel send, and every entry has a single owner. */
  lemma SendsNeverBlock(states: seq<State>, steps: seq<Step>, i: nat, t: nat)
    requires Run(states, steps) && i < |states| && t < |states[i].tasks|
    ensures states[i].tasks[t].Sending? ==> Enabled(states[i], Send(t))
    ensures states[i].tasks[t].Notifying? && states[i].tasks[t].targets != [] ==> Enabled(states[i], Notify(t))
    ensures forall u :: 0 <= u < |states[i].tasks| && u != t && Owned(states[i].tasks[t]).Some? ==>
              Owned(states[i].tasks[u]) != Owned(states[i].tasks[t]) && Owned(states[i].tasks[t]).value !in states[i].idle
  {
    RunKeepsInv(states, steps, i);
    var s := states[i];
    assert |Targets(s.tasks[t])| > 0 ==> CanSend(s.tasks, Targets(s.tasks[t])[0]);
  }

  // The channel a step sends to, if it sends.
  function SentTo(s: State, a: Step): Option<Chan>
    requires Enabled(s, a)
  {
    match a
    case Send(t) => Some(s.tasks[t].ch)
    case Notify(t) => Some(s.tasks[t].targets[0])
    case _ => None
  }

  // ch is no fresher in v than in s.
  ghost predicate Aged(s: State, v: State, ch: Chan)
  {
    && ch < |v.tasks| && (!CanSend(s.tasks, ch) ==> !CanSend(v.tasks, ch))
    && (ch !in s.waiters ==> ch !in v.waiters)
  }

  lemma AgesLocal(s: State, a: Step, ch: Chan)
    requires Enabled(s, a) && ch < |s.tasks| && Local(a)
    ensures Aged(s, Next(s, a), ch) && SentTo(s, a) == None
  {
    LocalStep(s, a);
    hide Next;
  }

  lemma AgesMoving(s: State, a: Step, ch: Chan)
    requires Enabled(s, a) && ch < |s.tasks| && Moving(a)
    ensures Aged(s, Next(s, a), ch) && (SentTo(s, a) == Some(ch) ==> !CanSend(Next(s, a).tasks, ch))
  {
    if a.Cancel? { WithoutSubset(s.waiters, a.t); }
    hide Without;
  }

  lemma AgesSpawning(s: State, a: Step, ch: Chan)
    requires Enabled(s, a) && ch < |s.tasks| && !Local(a) && !Moving(a)
    ensures Aged(s, Next(s, a), ch) && SentTo(s, a) == None
  {
    hide Kept;
  }

  // Once used, a channel never has room again; once out of the queue, it never returns.
  lemma ChannelAges(s: State, a: Step, ch: Chan)
    requires Enabled(s, a) && ch < |s.tasks|
    ensures Aged(s, Next(s, a), ch)
    ensures SentTo(s, a) == Some(ch) ==> !CanSend(Next(s, a).tasks, ch)
  {
    hide Next, Enabled, SentTo, Aged;
    if Local(a) {
      AgesLocal(s, a, ch);
    } else if Moving(a) {
      AgesMoving(s, a, ch);
    } else {
      AgesSpawning(s, a, ch);
    }
  }

  lemma {:induction false} WithoutSubset(ws: seq<Chan>, ch: Chan)
    ensures forall c :: c in Without(ws, ch) ==> c in ws
  {
    if ws != [] {
      WithoutSubset(ws[1..], ch);
    }
  }

  lemma {:induction false} StaysUsed(states: seq<State>, steps: seq<Step>, i: nat, j: nat, ch: Chan)
    requires Run(states, steps) && i <= j < |states| && ch < |states[i].tasks|
    ensures ch < |states[j].tasks|
    ensures !CanSend(states[i].tasks, ch) ==> !CanSend(states[j].tasks, ch)
    ensures ch !in states[i].waiters ==> ch !in states[j].waiters
    decreases j - i
  {
    hide CanSend, Next;
    if i < j {
      ChannelAges(states[i], steps[i], ch);
      StaysUsed(states, steps, i + 1, j, ch);
    }
  }

  /** A waiter channel gets at most one message in a whole run ... */
  lemma OneMessagePerChannel(states: seq<State>, steps: seq<Step>, i: nat, j: nat)
    requires Run(states, steps) && i < j < |steps| && SentTo(states[i], steps[i]).Some?
    ensures SentTo(states[i], steps[i]) != SentTo(states[j], steps[j])
  {
    var ch := SentTo(states[i], steps[i]).value;
    ChannelAges(states[i], steps[i], ch);
    StaysUsed(states, steps, i + 1, j, ch);
    hide Next;
  }

  /** ... and leaves the queue at most once. */
  lemma LeavesQueueOnce(states: seq<State>, steps: seq<Step>, i: nat, j: nat, ch: Chan)
    requires Run(states, steps) && i < j < |states| && ch in states[i].waiters && ch !in states[i + 1].waiters
    ensures ch !in states[j].waiters
  {
    RunKeepsInv(states, steps, i);
    ChannelAges(states[i], steps[i], ch);
    StaysUsed(states, steps, i + 1, j, ch);
    hide Next;
  }

  /** Before Close, open plus the failed replacement dials counts every live connection; the
      connections in hand are counted by inUse, always. */
  lemma OpenCountsLive(states: seq<State>, steps: seq<Step>, i: nat)
    requires Run(states, steps) && i < |states|
    ensures !states[i].closed ==> Live(states[i]) == states[i].open + states[i].failed
    ensures states[i].inUse == Total(InHand, states[i].tasks)
  {
    RunKeepsInv(states, steps, i);
    hide Live, Total;
  }
}
