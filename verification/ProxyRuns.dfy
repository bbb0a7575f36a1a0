/** What the step invariant says about whole runs of the proxy thread and the sweeper together. */
module ProxyRuns {
  import opened Options
  import opened EventTable
  import opened PluginHost
  import opened ProxyModel
  import opened ProxyInvariant
  import opened ProxySystem

  /** The proxy right after it registered its listener, at slot 0 of an empty table. */
  ghost predicate Initial(env: Env, s: System) {
    && s.p.conns == [] && s.p.live == [] && s.p.pool == [] && s.p.entries == 0 && s.p.plugin == NO_PLUGIN && s.p.open == {env.l.fd}
    && s.worker == Resting && s.sweeper == Asleep
    && env.l.fd >= 0 && env.l.handle == 0
    && WellFormed(s.p.ev) && s.p.ev.max == 1 && s.p.ev.slots[0] == Slot(env.l.fd, Listener, None)
  }

  ghost predicate IsRun(env: Env, states: seq<System>, steps: seq<Step>) {
    && |states| == |steps| + 1
    && Initial(env, states[0])
    && forall i | 0 <= i < |steps| :: CanStep(env, states[i], steps[i]) && states[i + 1] == Do(env, states[i], steps[i])
  }

  /** No handler started on an entry between its idle test and its eviction. */
  ghost predicate Untouched(states: seq<System>, steps: seq<Step>)
    requires |states| == |steps| + 1
  {
    forall i | 0 <= i < |steps| && steps[i].Evict? && states[i].sweeper.Walking? :: !states[i].sweeper.touched
  }

  /** Every eviction hits a connection that is in the chain and idle beyond the timeout. */
  ghost predicate AllProper(env: Env, states: seq<System>, steps: seq<Step>)
    requires IsRun(env, states, steps)
  {
    forall i | 0 <= i < |steps| && steps[i].Evict? :: ProperEviction(env, states[i])
  }

  lemma InitialInv(env: Env, s: System)
    requires Initial(env, s)
    ensures Inv(env, s)
  {
    assert Occupied(s.p.ev.slots, 1) == Occupied(s.p.ev.slots, 0) + 1;
  }

  // ---------------------------------------------------------------- every run

  lemma InitialHolds(env: Env, s: System)
    requires Initial(env, s)
    ensures Clocks(s) && WorkerHolds(s) && SweeperBehind(env, s)
  {
  }

  lemma {:induction false} RunHolds(env: Env, states: seq<System>, steps: seq<Step>, n: nat)
    requires IsRun(env, states, steps) && n <= |steps|
    ensures Clocks(states[n]) && WorkerHolds(states[n])
  {
    hide CanStep, Do, Clocks, WorkerHolds, Initial;
    if n == 0 {
      InitialHolds(env, states[0]);
    } else {
      RunHolds(env, states, steps, n - 1);
      assert CanStep(env, states[n - 1], steps[n - 1]) && states[n] == Do(env, states[n - 1], steps[n - 1]);
      StepHolds(env, states[n - 1], steps[n - 1]);
    }
  }

  lemma {:induction false} RunBehind(env: Env, states: seq<System>, steps: seq<Step>, n: nat)
    requires IsRun(env, states, steps) && env.timeout >= 0 && n <= |steps|
    ensures SweeperBehind(env, states[n])
  {
    hide CanStep, Do, SweeperBehind, Initial;
    if n == 0 {
      InitialHolds(env, states[0]);
    } else {
      RunBehind(env, states, steps, n - 1);
      assert CanStep(env, states[n - 1], steps[n - 1]) && states[n] == Do(env, states[n - 1], steps[n - 1]);
      StepBehind(env, states[n - 1], steps[n - 1]);
    }
  }

  /** In every run a handler that ends holds a record that is in the chain. */
  lemma HandlerActsOnLive(env: Env, states: seq<System>, steps: seq<Step>, n: nat)
    requires IsRun(env, states, steps) && n < |steps| && steps[n].Finish?
    ensures states[n].worker.Busy? && states[n].worker.c < |states[n].p.conns| && states[n].p.conns[states[n].worker.c].inChain
  {
    RunHolds(env, states, steps, n);
    assert CanStep(env, states[n], steps[n]);
  }

  /** Completeness, in every run: when a sweep ends, every connection of its snapshot is out of the chain or
      was active no longer than the timeout before the sweep's clock reading. */
  lemma SweepCompleteness(env: Env, states: seq<System>, steps: seq<Step>, n: nat, c: nat)
    requires IsRun(env, states, steps) && env.timeout >= 0
    requires n < |steps| && steps[n] == EndSweep && states[n].sweeper.Walking? && c in states[n].sweeper.holder
    ensures c < |states[n].p.conns|
    ensures states[n].p.conns[c].inChain ==> states[n].sweeper.tv - states[n].p.conns[c].recent <= env.timeout
  {
    RunBehind(env, states, steps, n);
    assert CanStep(env, states[n], steps[n]);
    var j :| 0 <= j < |states[n].sweeper.holder| && states[n].sweeper.holder[j] == c;
    assert Passed(env, states[n], states[n].sweeper.tv, c);
  }

  // ---------------------------------------------------------------- when everything stays coherent

  /** The evictions among the first `n` steps all close a connection that is in the chain. */
  ghost predicate AllHit(states: seq<System>, steps: seq<Step>, n: nat)
    requires n <= |steps| <= |states|
  {
    forall i | 0 <= i < n && steps[i].Evict? :: HitsChain(states[i])
  }

  lemma {:induction false} RunCoherent(env: Env, states: seq<System>, steps: seq<Step>, n: nat)
    requires IsRun(env, states, steps) && n <= |steps| && AllHit(states, steps, n)
    ensures Coherent(states[n].p, env.l, env.maxRequests)
  {
    hide Coherent, CanStep, Do, Initial, HitsChain, WorkerHolds, Clocks;
    if n == 0 {
      InitialInv(env, states[0]);
    } else {
      RunCoherent(env, states, steps, n - 1);
      RunHolds(env, states, steps, n - 1);
      assert CanStep(env, states[n - 1], steps[n - 1]) && states[n] == Do(env, states[n - 1], steps[n - 1]);
      StepCoherent(env, states[n - 1], steps[n - 1]);
    }
  }

  /** An eviction of an entry that is out of the chain pools it a second time. */
  lemma MissPoolsTwice(env: Env, s: System, closes: bool)
    requires Coherent(s.p, env.l, env.maxRequests) && CanStep(env, s, Evict(closes)) && !HitsChain(s)
    ensures !Coherent(Do(env, s, Evict(closes)).p, env.l, env.maxRequests)
  {
    CoherentLists(env, s.p);
    hide Slots, Keeps, Opened, Streams, DataOf, Removed, Released;
    var c := s.sweeper.holder[s.sweeper.i];
    var k :| 0 <= k < |s.p.pool| && s.p.pool[k] == c;
    var pool := Do(env, s, Evict(closes)).p.pool;
    assert pool == [c] + s.p.pool && pool[0] == pool[k + 1];
  }

  /** In every run, with handlers of any length: lists, event slots, descriptors, plugin count and streams
      stay coherent exactly as long as every eviction closes a connection that is in the chain. */
  lemma CoherentExactly(env: Env, states: seq<System>, steps: seq<Step>, n: nat)
    requires IsRun(env, states, steps) && n <= |steps|
    ensures (forall i | 0 <= i <= n :: Coherent(states[i].p, env.l, env.maxRequests)) <==> AllHit(states, steps, n)
  {
    hide Coherent, CanStep, Do, Initial, HitsChain;
    if AllHit(states, steps, n) {
      forall i | 0 <= i <= n ensures Coherent(states[i].p, env.l, env.maxRequests) {
        RunCoherent(env, states, steps, i);
      }
    } else {
      var i :| 0 <= i < n && steps[i].Evict? && !HitsChain(states[i]);
      assert CanStep(env, states[i], steps[i]) && states[i + 1] == Do(env, states[i], steps[i]);
      if Coherent(states[i].p, env.l, env.maxRequests) {
        MissPoolsTwice(env, states[i], steps[i].closes);
      }
    }
  }

  // ---------------------------------------------------------------- handlers no longer than the timeout

  lemma {:induction false} RunInv(env: Env, states: seq<System>, steps: seq<Step>, n: nat)
    requires IsRun(env, states, steps) && 0 <= env.maxHold <= env.timeout && n <= |steps|
    requires forall i | 0 <= i < n && steps[i].Evict? && states[i].sweeper.Walking? :: !states[i].sweeper.touched
    ensures Inv(env, states[n])
  {
    hide Inv, CanStep, Do, Initial;
    if n == 0 {
      InitialInv(env, states[0]);
    } else {
      RunInv(env, states, steps, n - 1);
      assert CanStep(env, states[n - 1], steps[n - 1]) && states[n] == Do(env, states[n - 1], steps[n - 1]);
      EvictWalks(env, states[n - 1], steps[n - 1]);
      StepKeeps(env, states[n - 1], steps[n - 1]);
    }
  }

  lemma EvictWalks(env: Env, s: System, step: Step)
    requires CanStep(env, s, step)
    ensures step.Evict? ==> s.sweeper.Walking?
  {
  }

  /** A reachable eviction is proper exactly when no handler has started on the entry since its test. */
  lemma EvictionExact(env: Env, s: System, closes: bool)
    requires Inv(env, s) && CanStep(env, s, Evict(closes)) && 0 <= env.timeout
    ensures ProperEviction(env, s) <==> !s.sweeper.touched
  {
    hide Coherent;
    assert Chosen(env, s, s.sweeper.tv, s.sweeper.holder[s.sweeper.i], s.sweeper.touched);
  }

  /** Sweep safety: with handlers held no longer than the timeout, the sweeps of a run close only live,
      truly idle connections exactly when no handler started on an entry between its test and its eviction. */
  lemma SweepSafety(env: Env, states: seq<System>, steps: seq<Step>)
    requires IsRun(env, states, steps) && 0 <= env.maxHold <= env.timeout
    ensures AllProper(env, states, steps) <==> Untouched(states, steps)
  {
    hide Inv, CanStep, Do, Initial, ProperEviction;
    if Untouched(states, steps) {
      forall i | 0 <= i < |steps| && steps[i].Evict? ensures ProperEviction(env, states[i]) {
        EvictWalks(env, states[i], steps[i]);
        RunInv(env, states, steps, i);
        EvictionExact(env, states[i], steps[i].closes);
      }
    } else {
      var i := FirstTouched(states, steps);
      RunInv(env, states, steps, i);
      EvictionExact(env, states[i], steps[i].closes);
    }
  }

  lemma FirstTouched(states: seq<System>, steps: seq<Step>) returns (i: nat)
    requires |states| == |steps| + 1 && !Untouched(states, steps)
    ensures i < |steps| && steps[i].Evict? && states[i].sweeper.Walking? && states[i].sweeper.touched
    ensures forall j | 0 <= j < i && steps[j].Evict? && states[j].sweeper.Walking? :: !states[j].sweeper.touched
  {
    i := 0;
    while !(steps[i].Evict? && states[i].sweeper.Walking? && states[i].sweeper.touched)
      invariant i < |steps|
      invariant exists j :: i <= j < |steps| && steps[j].Evict? && states[j].sweeper.Walking? && states[j].sweeper.touched
      invariant forall j | 0 <= j < i && steps[j].Evict? && states[j].sweeper.Walking? :: !states[j].sweeper.touched
      decreases |steps| - i
    {
      i := i + 1;
    }
  }

  // ---------------------------------------------------------------- dispatching

  /** A dispatched descriptor runs the handler registered for it, on the connection it belongs to; one that
      belongs to nobody runs nothing. */
  lemma DispatchExact(env: Env, s: System, fd: int)
    requires Coherent(s.p, env.l, env.maxRequests) && CanStep(env, s, Dispatch(fd))
    ensures var w := Do(env, s, Dispatch(fd)).worker;
            && (fd == env.l.fd ==> w == Ready(Listener, 0, 0))
            && (forall c | 0 <= c < |s.p.conns| && s.p.conns[c].inChain ::
                  var conn := s.p.conns[c];
                  && (conn.clientFd == fd && conn.clientHandle >= 0 ==> w == Ready(ClientToServer, c, conn.connectionId))
                  && (conn.serverFd == fd && conn.serverHandle >= 0 ==> w == Ready(ServerToClient, c, conn.connectionId)))
            && (w.Ready? && w.handler == Listener ==> fd == env.l.fd)
            && (w.Ready? && w.handler != Listener ==>
                  w.c < |s.p.conns| && s.p.conns[w.c].inChain && s.p.conns[w.c].connectionId == w.id &&
                  fd == if w.handler == ClientToServer then s.p.conns[w.c].clientFd else s.p.conns[w.c].serverFd)
  {
    hide Handles, DataOf, Keeps, Streams, Opened;
    var p, l := s.p, env.l;
    var hit := Find(p.ev.slots, p.ev.max, fd, 0);
    if hit.Some? {
      assert OwnedSlot(p, l, hit.value);
      if hit.value != l.handle { assert OwnsSlots(p, p.ev.slots[hit.value].arg.value); }
    }
    forall c | 0 <= c < |p.conns| && p.conns[c].inChain
      ensures p.conns[c].clientHandle >= 0 && p.conns[c].clientFd == fd ==> hit == Some(p.conns[c].clientHandle)
      ensures p.conns[c].serverHandle >= 0 && p.conns[c].serverFd == fd ==> hit == Some(p.conns[c].serverHandle)
    {
      assert OwnsSlots(p, c);
    }
  }

  /** A step of the sweeper, the clock or an operator. */
  predicate Foreign(step: Step) {
    !(step.Dispatch? || step.Begin? || step.Finish? || step.TakeIn? || step.Decline?)
  }

  /** Between dispatch and handling only foreign steps run: the dispatched record is not recycled, and at
      most leaves the chain. */
  lemma {:induction false} DispatchedStays(env: Env, states: seq<System>, steps: seq<Step>, start: nat, end: nat, c: nat)
    requires IsRun(env, states, steps)
    requires start <= end <= |steps| && c < |states[start].p.conns|
    requires forall i | start <= i < end :: Foreign(steps[i])
    ensures states[end].worker == states[start].worker && c < |states[end].p.conns|
    ensures states[end].p.conns[c] == states[start].p.conns[c] || states[end].p.conns[c] == states[start].p.conns[c].(inChain := false)
    decreases end
  {
    hide Initial, CanStep, Do;
    if start < end {
      DispatchedStays(env, states, steps, start, end - 1, c);
      assert CanStep(env, states[end - 1], steps[end - 1]) && states[end] == Do(env, states[end - 1], steps[end - 1]);
      ForeignFrame(env, states[end - 1], steps[end - 1], c);
    }
  }

  lemma ForeignFrame(env: Env, s: System, step: Step, c: nat)
    requires CanStep(env, s, step) && Foreign(step) && c < |s.p.conns|
    ensures var s' := Do(env, s, step);
            && s'.worker == s.worker && c < |s'.p.conns|
            && (s'.p.conns[c] == s.p.conns[c] || s'.p.conns[c] == s.p.conns[c].(inChain := false))
  {
    hide Removed, Released, Without, Loaded, Unloaded;
  }

  /** From the dispatch of a descriptor to the handler's turn: the handler runs on the live connection that
      owns the descriptor, whose record is still the same; or the sweeper has closed that connection in the
      meantime, and then the handler changes nothing but that its turn is over. */
  lemma DispatchedIsHandled(env: Env, states: seq<System>, steps: seq<Step>, fd: int, i: nat, j: nat)
    requires IsRun(env, states, steps) && i < |steps| && AllHit(states, steps, i)
    requires i < j < |steps| && steps[i] == Dispatch(fd) && steps[j] == Begin
    requires forall k | i < k < j :: Foreign(steps[k])
    ensures states[j].worker.Ready? && states[j].worker.handler != Listener
    ensures var h, c := states[j].worker.handler, states[j].worker.c;
            && c < |states[i].p.conns| && c < |states[j].p.conns| && c < |states[j + 1].p.conns|
            && var conn := states[i].p.conns[c];
               && conn.inChain && fd == (if h == ClientToServer then conn.clientFd else conn.serverFd)
               && if states[j].p.conns[c].inChain then
                    && states[j].p.conns[c] == conn && states[j + 1].worker == Busy(h, c, states[j].now)
                    && states[j + 1].p == Stamp(states[j].p, c, states[j].now)
                  else
                    && states[j].p.conns[c] == conn.(inChain := false) && states[j + 1] == states[j].(worker := Resting)
  {
    hide Coherent, Initial, Touched, Dispatched;
    RunCoherent(env, states, steps, i);
    assert CanStep(env, states[i], steps[i]) && states[i + 1] == Do(env, states[i], steps[i]);
    DispatchExact(env, states[i], fd);
    assert CanStep(env, states[j], steps[j]) && states[j + 1] == Do(env, states[j], steps[j]);
    WorkerWaits(env, states, steps, i + 1, j);
    DispatchedStays(env, states, steps, i + 1, j, states[i + 1].worker.c);
  }

  lemma {:induction false} WorkerWaits(env: Env, states: seq<System>, steps: seq<Step>, start: nat, end: nat)
    requires IsRun(env, states, steps) && start <= end <= |steps| && forall i | start <= i < end :: Foreign(steps[i])
    ensures states[end].worker == states[start].worker
  {
    if start < end {
      WorkerWaits(env, states, steps, start, end - 1);
      assert CanStep(env, states[end - 1], steps[end - 1]) && states[end] == Do(env, states[end - 1], steps[end - 1]);
    }
  }

  // ---------------------------------------------------------------- handlers slower than the timeout

  /** All untouched runs of an environment evict properly. */
  ghost predicate Safe(env: Env) {
    forall states: seq<System>, steps: seq<Step> | IsRun(env, states, steps) && Untouched(states, steps) :: AllProper(env, states, steps)
  }

  function StartSlots(fd: int): (slots: seq<Slot>)
    ensures |slots| == MAX_EVENTS && slots[0] == Slot(fd, Listener, None) && slots[1].fd == 0
  {
    seq(MAX_EVENTS, i => if i == 0 then Slot(fd, Listener, None) else Slot(0, Listener, None))
  }

  function Start(fd: int): System {
    System(Proxy([], [], [], 0, Events(StartSlots(fd), 1, 1), NO_PLUGIN, {fd}), 0, Resting, Asleep, 0)
  }

  /** With only the listener registered, an add the kernel refuses leaves the count at two. */
  lemma RefusedAtStart(fd: int, s: Slot)
    requires fd >= 0
    ensures var e := Start(fd).p.ev;
            WellFormed(e) && e.num == 1 && Added(e, s, false).0.num == 2 && (WellFormed(Added(e, s, false).0) <==> fd != 0)
  {
    var e := Start(fd).p.ev;
    assert Occupied(e.slots, 1) == Occupied(e.slots, 0) + 1;
    RefusedAddKeeps(e, s);
  }

  lemma Prolong(env: Env, states: seq<System>, steps: seq<Step>, step: Step) returns (states': seq<System>, steps': seq<Step>)
    requires IsRun(env, states, steps) && CanStep(env, states[|steps|], step)
    ensures states' == states + [Do(env, states[|steps|], step)] && steps' == steps + [step] && IsRun(env, states', steps')
  {
    hide Initial, Do;
    states', steps' := states + [Do(env, states[|steps|], step)], steps + [step];
    forall i | 0 <= i < |steps'| ensures CanStep(env, states'[i], steps'[i]) && states'[i + 1] == Do(env, states'[i], steps'[i]) {
      if i < |steps| { assert CanStep(env, states[i], steps[i]); }
    }
  }

  lemma Extend(env: Env, states: seq<System>, steps: seq<Step>, step: Step) returns (states': seq<System>, steps': seq<Step>)
    requires IsRun(env, states, steps) && Untouched(states, steps)
    requires CanStep(env, states[|steps|], step) && (step.Evict? ==> !states[|steps|].sweeper.touched)
    ensures states' == states + [Do(env, states[|steps|], step)] && steps' == steps + [step]
    ensures IsRun(env, states', steps') && Untouched(states', steps')
  {
    hide Initial, Do, CanStep;
    EvictWalks(env, states[|steps|], step);
    states', steps' := Prolong(env, states, steps, step);
  }

  /** The proxy with one connection, whose client descriptor has just been dispatched. */
  lemma OneConnection(env: Env) returns (states: seq<System>, steps: seq<Step>)
    requires env.l.fd >= 0 && env.l.handle == 0 && env.maxHold >= 0
    ensures IsRun(env, states, steps) && Untouched(states, steps) && AllHit(states, steps, |steps|)
    ensures var s := states[|steps|];
            && s.now == 0 && s.sweeper == Asleep && s.worker == Ready(ClientToServer, 0, 1)
            && |s.p.conns| == 1 && s.p.live == [0] && s.p.pool == [] && s.p.conns[0].inChain && s.p.conns[0].recent == 0
            && Shaped(s.p.ev)
  {
    hide Coherent, Do, CanStep, Accept, Dispatched;
    var s0 := Start(env.l.fd);
    StartIsInitial(env);
    states, steps := [s0], [];
    FirstDispatch(env, s0);
    states, steps := Extend(env, states, steps, Dispatch(env.l.fd));
    var s1 := Do(env, s0, Dispatch(env.l.fd));
    var peer := Connected(env.l.fd + 1, env.l.fd + 2, false);
    FirstAccept(env, s0, s1, peer);
    states, steps := Extend(env, states, steps, TakeIn(peer));
    var s2 := Do(env, s1, TakeIn(peer));
    SecondDispatch(env, s2, peer.clientFd);
    RunCoherent(env, states, steps, |steps|);
    DispatchExact(env, s2, peer.clientFd);
    states, steps := Extend(env, states, steps, Dispatch(peer.clientFd));
  }

  lemma StartIsInitial(env: Env)
    requires env.l.fd >= 0 && env.l.handle == 0
    ensures Initial(env, Start(env.l.fd)) && IsRun(env, [Start(env.l.fd)], []) && Untouched([Start(env.l.fd)], [])
  {
    assert Occupied(StartSlots(env.l.fd), 1) == Occupied(StartSlots(env.l.fd), 0) + 1;
  }

  lemma FirstDispatch(env: Env, s: System)
    requires Initial(env, s)
    ensures CanStep(env, s, Dispatch(env.l.fd))
    ensures Do(env, s, Dispatch(env.l.fd)) == s.(worker := Ready(Listener, 0, 0))
  {
  }

  lemma FirstAccept(env: Env, s0: System, s: System, peer: Peer)
    requires Initial(env, s0) && s == s0.(worker := Ready(Listener, 0, 0)) && s0.now == 0 && s0.connections == 0
    requires peer == Connected(env.l.fd + 1, env.l.fd + 2, false)
    ensures CanStep(env, s, TakeIn(peer))
    ensures var s' := Do(env, s, TakeIn(peer));
            && s' == s.(p := Accept(s.p, 1, 0, peer), worker := Resting, connections := 1)
            && s'.now == 0 && s'.sweeper == Asleep
            && |s'.p.conns| == 1 && s'.p.live == [0] && s'.p.pool == []
            && s'.p.conns[0].inChain && s'.p.conns[0].recent == 0 && s'.p.conns[0].connectionId == 1
            && s'.p.conns[0].clientFd == peer.clientFd && s'.p.conns[0].clientHandle >= 0 && Shaped(s'.p.ev)
  {
    hide Accept, Added, Allocated;
    InitialInv(env, s0);
    CoherentLists(env, s.p);
    PeerIsFresh(env, s.p, peer);
    var c, a, b := Accepted(s.p, 1, 0, peer);
    RoomForAccept(s.p, env.l, env.maxRequests, 1, 0, peer);
  }

  lemma SecondDispatch(env: Env, s: System, fd: int)
    requires s.worker.Resting? && fd >= 0 && Shaped(s.p.ev) && s.p.live == [0] && s.p.pool == [] && |s.p.conns| == 1
    ensures CanStep(env, s, Dispatch(fd)) && Do(env, s, Dispatch(fd)) == s.(worker := Dispatched(s.p, fd))
  {
  }

  lemma PooledTwice(p: Proxy, l: Listening, maxRequests: int)
    requires p.pool == [0, 0]
    ensures !Coherent(p, l, maxRequests)
  {
    assert p.pool[0] == p.pool[1];
  }

  /** One connection, never recycled. */
  ghost predicate Single(p: Proxy) {
    |p.conns| == 1 && p.live == [0] && p.pool == [] && p.conns[0].inChain && p.conns[0].recent == 0 && Shaped(p.ev)
  }

  /** A handler that reads nothing ends the connection. */
  lemma Ends(env: Env, s: System)
    requires |s.p.conns| == 1 && s.p.live == [0] && s.p.pool == [] && s.p.conns[0].inChain && Shaped(s.p.ev) && s.worker.Busy? && s.worker.c == 0
    ensures CanStep(env, s, Finish(Traffic([], [], false), false))
    ensures var s' := Do(env, s, Finish(Traffic([], [], false), false));
            && Ended(s'.p) && s'.p.conns[0].recent == s.p.conns[0].recent && s'.worker == Resting && s'.sweeper == s.sweeper && s'.now == s.now
  {
    hide Removed, Released;
  }

  ghost predicate Ended(p: Proxy) {
    |p.conns| == 1 && p.live == [] && p.pool == [0] && !p.conns[0].inChain && Shaped(p.ev)
  }

  /** The sweeper, about to close it, closes it again. */
  lemma EndsAgain(env: Env, s: System)
    requires Ended(s.p) && s.worker == Resting && s.sweeper.Walking? && s.sweeper.waiting && s.sweeper.holder == [0] && s.sweeper.i == 0
    ensures CanStep(env, s, Evict(false)) && !HitsChain(s) && !ProperEviction(env, s)
    ensures Do(env, s, Evict(false)).p.pool == [0, 0] && !Coherent(Do(env, s, Evict(false)).p, env.l, env.maxRequests)
  {
    PooledTwice(Do(env, s, Evict(false)).p, env.l, env.maxRequests);
    hide Removed, Released, Coherent;
  }

  /** The handler of a connection about to be closed starts. */
  lemma Starts(env: Env, s: System)
    requires Single(s.p) && s.worker == Ready(ClientToServer, 0, 1)
    requires s.sweeper.Walking? && s.sweeper.waiting && s.sweeper.holder == [0] && s.sweeper.i == 0
    ensures CanStep(env, s, Begin)
    ensures var s' := Do(env, s, Begin);
            && |s'.p.conns| == 1 && s'.p.live == [0] && s'.p.pool == [] && s'.p.conns[0].inChain && s'.p.conns[0].recent == s.now && Shaped(s'.p.ev)
            && s'.worker.Busy? && s'.worker.c == 0 && s'.worker.handler == ClientToServer && s'.sweeper == s.sweeper.(touched := true)
  {
  }

  lemma CloseRange(p: Proxy, c: nat, closes: bool)
    requires c < |p.conns| && Shaped(p.ev) && InRange(p.live, |p.conns|) && InRange(p.pool, |p.conns|)
    ensures var q := Close(p, c, closes); Shaped(q.ev) && |q.conns| == |p.conns| && InRange(q.live, |p.conns|) && InRange(q.pool, |p.conns|)
  {
    hide Removed, Released;
  }

  /** A handler that carries a packet does not make the connection idle. */
  lemma Carries(env: Env, s: System, t: Traffic)
    requires |s.p.conns| == 1 && s.p.live == [0] && s.p.pool == [] && s.p.conns[0].inChain && Shaped(s.p.ev)
    requires s.worker.Busy? && s.worker.c == 0 && t.bytes != []
    ensures CanStep(env, s, Finish(t, false))
    ensures var s' := Do(env, s, Finish(t, false));
            && |s'.p.conns| == 1 && InRange(s'.p.live, 1) && InRange(s'.p.pool, 1) && Shaped(s'.p.ev)
            && s'.p.conns[0].recent == s.p.conns[0].recent && s'.worker == Resting && s'.sweeper == s.sweeper
  {
    var p, fromClient := s.p, s.worker.handler == ClientToServer;
    ForwardFrame(p, 0, fromClient, t, env.maxRequests, false);
    hide Close, WriteTotal, Analyzed, Carried, OnlyLeaves;
    var q := p.(plugin := Analyzed(p.plugin, p.conns[0].data, t.crashes));
    CloseRange(SetConn(q, 0, p.conns[0].(fromClient := p.conns[0].fromClient + t.bytes)), 0, false);
    CloseRange(SetConn(q, 0, Carried(p.conns[0], fromClient, t.bytes, WriteTotal(|t.bytes|, t.writes))), 0, false);
    LeavesRecent(p, Forward(p, 0, fromClient, t, env.maxRequests, false), 0);
  }

  lemma LeavesRecent(p: Proxy, q: Proxy, c: nat)
    requires OnlyLeaves(p, q, c)
    ensures |q.conns| == |p.conns| && c < |q.conns| && q.conns[c].recent == p.conns[c].recent
  {
  }

  /** A handler that has held the connection for as long as it may, under a fresh snapshot. */
  lemma Stalled(env: Env) returns (states: seq<System>, steps: seq<Step>)
    requires env.l.fd >= 0 && env.l.handle == 0 && 0 <= env.maxHold
    ensures IsRun(env, states, steps) && Untouched(states, steps)
    ensures var s := states[|steps|];
            Single(s.p) && s.worker == Busy(ClientToServer, 0, 0) && s.sweeper == Walking(env.maxHold, [0], 0, false, false)
  {
    hide Initial;
    states, steps := OneConnection(env);
    states, steps := Extend(env, states, steps, Begin);
    states, steps := Extend(env, states, steps, Tick(env.maxHold));
    states, steps := Extend(env, states, steps, ReadClock);
    states, steps := Extend(env, states, steps, Snapshot);
  }

  lemma TestsIdle(env: Env, s: System)
    requires Ended(s.p) && s.sweeper == Walking(env.maxHold, [0], 0, false, false) && s.p.conns[0].recent == 0 && env.maxHold > env.timeout
    ensures CanStep(env, s, Test) && Do(env, s, Test) == s.(sweeper := s.sweeper.(waiting := true))
  {
  }

  /** A handler that stalls longer than the timeout defeats the sweep: the connection is snapshotted while
      the handler still holds it, the handler then closes it, and the sweeper, finding the stamp old, closes
      it again and pools its record a second time. */
  lemma SlowHandlerBreaksTheSweep(env: Env) returns (states: seq<System>, steps: seq<Step>)
    requires env.l.fd >= 0 && env.l.handle == 0 && 0 <= env.timeout < env.maxHold
    ensures IsRun(env, states, steps) && Untouched(states, steps) && !AllProper(env, states, steps)
    ensures !AllHit(states, steps, |steps|) && states[|steps|].p.pool == [0, 0]
    ensures !Coherent(states[|steps|].p, env.l, env.maxRequests)
  {
    hide Initial, Do, CanStep, Coherent, HitsChain, ProperEviction;
    states, steps := Stalled(env);
    Ends(env, states[|steps|]);
    states, steps := Extend(env, states, steps, Finish(Traffic([], [], false), false));
    TestsIdle(env, states[|steps|]);
    states, steps := Extend(env, states, steps, Test);
    var last := |steps|;
    EndsAgain(env, states[last]);
    states, steps := Extend(env, states, steps, Evict(false));
    assert steps[last].Evict?;
  }

  /** The connection has tested idle and awaits its eviction, with its handler about to start. */
  lemma Waiting(env: Env) returns (states: seq<System>, steps: seq<Step>)
    requires env.l.fd >= 0 && env.l.handle == 0 && 0 <= env.maxHold && 0 <= env.timeout
    ensures IsRun(env, states, steps)
    ensures var s := states[|steps|];
            Single(s.p) && s.worker == Ready(ClientToServer, 0, 1) && s.now == env.timeout + 1
            && s.sweeper == Walking(env.timeout + 1, [0], 0, true, false)
  {
    hide Initial;
    states, steps := OneConnection(env);
    states, steps := Prolong(env, states, steps, Tick(env.timeout + 1));
    states, steps := Prolong(env, states, steps, ReadClock);
    states, steps := Prolong(env, states, steps, Snapshot);
    states, steps := Prolong(env, states, steps, Test);
  }

  /** A handler that starts between an entry's idle test and its eviction defeats the sweep too, however
      short it is: the sweeper closes a connection that was active at that very moment. */
  lemma RaceBreaksTheSweep(env: Env) returns (states: seq<System>, steps: seq<Step>)
    requires env.l.fd >= 0 && env.l.handle == 0 && 0 <= env.maxHold && 0 <= env.timeout
    ensures IsRun(env, states, steps) && !Untouched(states, steps) && !AllProper(env, states, steps)
  {
    hide Initial, Do, Single;
    states, steps := Waiting(env);
    Starts(env, states[|steps|]);
    states, steps := Prolong(env, states, steps, Begin);
    Carries(env, states[|steps|], Traffic([1], [1], false));
    states, steps := Prolong(env, states, steps, Finish(Traffic([1], [1], false), false));
    var last := |steps|;
    states, steps := Prolong(env, states, steps, Evict(false));
    assert steps[last].Evict? && states[last].sweeper.touched && !ProperEviction(env, states[last]);
  }

  /** The same race with a handler that ends the connection: the sweeper ends it again, and its record is in
      the pool twice, however short handlers are. */
  lemma RacePoolsTwice(env: Env) returns (states: seq<System>, steps: seq<Step>)
    requires env.l.fd >= 0 && env.l.handle == 0 && 0 <= env.maxHold && 0 <= env.timeout
    ensures IsRun(env, states, steps) && !AllHit(states, steps, |steps|) && states[|steps|].p.pool == [0, 0]
    ensures !Coherent(states[|steps|].p, env.l, env.maxRequests)
  {
    hide Initial, Do, CanStep, Coherent, HitsChain, Single;
    states, steps := Waiting(env);
    Starts(env, states[|steps|]);
    states, steps := Prolong(env, states, steps, Begin);
    Ends(env, states[|steps|]);
    states, steps := Prolong(env, states, steps, Finish(Traffic([], [], false), false));
    var last := |steps|;
    EndsAgain(env, states[last]);
    states, steps := Prolong(env, states, steps, Evict(false));
    assert steps[last].Evict?;
  }

  /** Untouched sweeps are safe in every run exactly when no handler may be held longer than the timeout. */
  lemma SafeExactly(env: Env)
    requires env.l.fd >= 0 && env.l.handle == 0 && env.timeout >= 0 && env.maxHold >= 0
    ensures Safe(env) <==> env.maxHold <= env.timeout
  {
    if env.maxHold <= env.timeout {
      forall states: seq<System>, steps: seq<Step> | IsRun(env, states, steps) && Untouched(states, steps) ensures AllProper(env, states, steps) {
        SweepSafety(env, states, steps);
      }
    } else {
      var states, steps := SlowHandlerBreaksTheSweep(env);
    }
  }
}
