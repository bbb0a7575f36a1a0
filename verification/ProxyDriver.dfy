/** The service object over its whole life: whatever it is asked to do, one thing at a time, its heap stands for
    a reachable state of the two-thread system, and in the end nothing is left. */
module ProxyDriver {
  import opened Sequences
  import opened Options
  import opened EventTable
  import opened PluginHost
  import opened ProxyModel
  import opened ProxyInvariant
  import opened ProxySystem
  import opened ProxyRuns
  import opened ProxyService
  import opened ConnectionLists

  /** One call from outside, with all the kernel and the plugin answer in it. */
  datatype Call =
    | Wait(dt: int)
    | Readable(fd: int, peer: Peer, t: Traffic, closes: bool)  // a descriptor is ready
    | Idle(closes: bool)                                       // the sweeper wakes up
    | Operate(command: Command)

  predicate Calm(s: System) {
    s.worker == Resting && s.sweeper == Asleep && Shaped(s.p.ev) && InRange(s.p.live, |s.p.conns|) && InRange(s.p.pool, |s.p.conns|)
  }

  /** Time does not go back, and new descriptors are new. */
  ghost predicate Possible(s: System, call: Call) {
    && (call.Wait? ==> call.dt >= 0)
    && (call.Readable? ==> call.fd >= 0 && NewPeer(s.p, call.peer))
  }

  function Handled(env: Env, s: System, call: Call): System
    requires Calm(s) && call.Readable?
  {
    match Dispatched(s.p, call.fd)
    case Resting => s
    case Busy(_, _, _) => s
    case Ready(h, c, id) =>
      if h == Listener then s.(p := Accept(s.p, s.connections + 1, s.now, call.peer), connections := s.connections + 1)
      else if c < |s.p.conns| && s.p.conns[c].inChain then
        s.(p := Forward(Stamp(s.p, c, s.now), c, h == ClientToServer, call.t, env.maxRequests, call.closes))
      else s
  }

  /** What one call leaves. */
  function After(env: Env, s: System, call: Call): System
    requires Calm(s)
  {
    match call
    case Wait(dt) => s.(now := s.now + dt)
    case Readable(_, _, _, _) => Handled(env, s, call)
    case Idle(closes) => s.(p := SweepAll(s.p, s.p.live, s.now, env.timeout, closes))
    case Operate(command) => s.(p := s.p.(plugin := Commanded(s.p.plugin, command)))
  }

  // ---------------------------------------------------------------- calls are runs of steps

  /** A state that the two-thread system can reach with every eviction hitting the chain. */
  ghost predicate Reachable(env: Env, s: System) {
    exists states: seq<System>, steps: seq<Step> :: IsRun(env, states, steps) && AllHit(states, steps, |steps|) && states[|steps|] == s
  }

  lemma ReachStep(env: Env, s: System, step: Step)
    requires Reachable(env, s) && CanStep(env, s, step) && (step.Evict? ==> HitsChain(s))
    ensures Reachable(env, Do(env, s, step))
  {
    hide CanStep, Do, Initial, HitsChain;
    var states: seq<System>, steps: seq<Step> :| IsRun(env, states, steps) && AllHit(states, steps, |steps|) && states[|steps|] == s;
    var states', steps' := Prolong(env, states, steps, step);
    assert states'[|steps'|] == Do(env, s, step) && AllHit(states', steps', |steps'|);
  }

  lemma ReachCoherent(env: Env, s: System)
    requires Reachable(env, s)
    ensures Coherent(s.p, env.l, env.maxRequests) && Clocks(s) && WorkerHolds(s) && Lists(s.p)
    ensures Shaped(s.p.ev) && InRange(s.p.live, |s.p.conns|) && InRange(s.p.pool, |s.p.conns|)
  {
    hide Coherent, Clocks, WorkerHolds, Initial;
    var states: seq<System>, steps: seq<Step> :| IsRun(env, states, steps) && AllHit(states, steps, |steps|) && states[|steps|] == s;
    RunCoherent(env, states, steps, |steps|);
    RunHolds(env, states, steps, |steps|);
    CoherentLists(env, s.p);
  }

  lemma HandledReachable(env: Env, s: System, call: Call)
    requires Reachable(env, s) && Calm(s) && call.Readable? && Possible(s, call)
    ensures Reachable(env, Handled(env, s, call)) && Handled(env, s, call).worker == Resting && Handled(env, s, call).sweeper == Asleep
  {
    hide Reachable, IsRun, Accept, Forward, NewPeer, Dispatched;
    ReachStep(env, s, Dispatch(call.fd));
    var s1 := Do(env, s, Dispatch(call.fd));
    if s1.worker.Ready? {
      if s1.worker.handler == Listener {
        ReachStep(env, s1, TakeIn(call.peer));
      } else {
        ReachCoherent(env, s1);
        ReachStep(env, s1, Begin);
        var s2 := Do(env, s1, Begin);
        if s2.worker.Busy? {
          ReachStep(env, s2, Finish(call.t, call.closes));
        }
      }
    }
  }

  /** A ready descriptor is the dispatch of it, and then the acceptance, or the handler from start to end. */
  lemma ReadableIsSteps(env: Env, s: System, call: Call)
    requires Reachable(env, s) && Calm(s) && call.Readable? && Possible(s, call)
    ensures CanStep(env, s, Dispatch(call.fd))
    ensures var s1, after := Do(env, s, Dispatch(call.fd)), Handled(env, s, call);
            match s1.worker
            case Resting => after == s1
            case Ready(h, _, _) =>
              if h == Listener then CanStep(env, s1, TakeIn(call.peer)) && after == Do(env, s1, TakeIn(call.peer))
              else
                && CanStep(env, s1, Begin)
                && var s2 := Do(env, s1, Begin);
                   s2.worker.Busy? && s2.sweeper == s.sweeper && CanStep(env, s2, Finish(call.t, call.closes))
                   && after == Do(env, s2, Finish(call.t, call.closes))
            case Busy(_, _, _) => false
  {
    hide Reachable, Accept, Forward, NewPeer;
    DispatchedLive(env, s, call.fd);
  }

  /** From the middle of a walk that nothing interrupts. */
  lemma {:induction false} WalkReachable(env: Env, s: System, closes: bool)
    requires Reachable(env, s) && s.worker == Resting && s.sweeper.Walking? && !s.sweeper.waiting && s.sweeper.i <= |s.sweeper.holder|
    requires Shaped(s.p.ev) && InRange(s.p.live, |s.p.conns|) && InRange(s.p.pool, |s.p.conns|) && InRange(s.sweeper.holder, |s.p.conns|)
    requires Distinct(s.sweeper.holder) && forall j | s.sweeper.i <= j < |s.sweeper.holder| :: s.p.conns[s.sweeper.holder[j]].inChain
    ensures InRange(s.sweeper.holder[s.sweeper.i..], |s.p.conns|)
    ensures Reachable(env, s.(p := SweepAll(s.p, s.sweeper.holder[s.sweeper.i..], s.sweeper.tv, env.timeout, closes), sweeper := Asleep))
    decreases |s.sweeper.holder| - s.sweeper.i
  {
    hide Reachable, Close;
    var w := s.sweeper;
    var rest := w.holder[w.i..];
    if w.i == |w.holder| {
      ReachStep(env, s, EndSweep);
    } else {
      assert rest[0] == w.holder[w.i] && rest[1..] == w.holder[w.i + 1..];
      ReachStep(env, s, Test);
      var s1 := Do(env, s, Test);
      if s1.sweeper.waiting {
        ReachStep(env, s1, Evict(closes));
        var s2 := Do(env, s1, Evict(closes));
        ReachCoherent(env, s2);
        CloseFrame(s.p, rest[0], closes);
        WalkReachable(env, s2, closes);
      } else {
        WalkReachable(env, s1, closes);
      }
    }
  }

  lemma AfterReachable(env: Env, s: System, call: Call)
    requires Reachable(env, s) && Calm(s) && Possible(s, call)
    ensures Reachable(env, After(env, s, call)) && Calm(After(env, s, call))
  {
    hide Reachable, SweepAll, Handled;
    match call {
      case Wait(dt) => ReachStep(env, s, Tick(dt));
      case Readable(_, _, _, _) => HandledReachable(env, s, call);
      case Idle(closes) =>
        ReachStep(env, s, ReadClock);
        ReachStep(env, Do(env, s, ReadClock), Snapshot);
        var s2 := Do(env, Do(env, s, ReadClock), Snapshot);
        assert s2.sweeper.holder[0..] == s.p.live;
        ReachCoherent(env, s);
        AllLive(s.p);
        WalkReachable(env, s2, closes);
      case Operate(command) =>
        match command {
          case LoadPlugin(outcome) => ReachStep(env, s, Load(outcome));
          case UnloadPlugin(closes) => ReachStep(env, s, Unload(closes));
          case EnablePlugin(on) => ReachStep(env, s, Enable(on));
        }
    }
    ReachCoherent(env, After(env, s, call));
  }

  lemma AllLive(p: Proxy)
    requires Lists(p)
    ensures Distinct(p.live) && forall j | 0 <= j < |p.live| :: p.conns[p.live[j]].inChain
  {
    assert forall j | 0 <= j < |p.live| :: p.live[j] in p.live;
  }

  // ---------------------------------------------------------------- the object

  lemma StartState(fd: int)
    ensures Added(EMPTY, Slot(fd, Listener, None), true) == (Events(StartSlots(fd), 1, 1), 0)
  {
    assert EMPTY.slots[0 := Slot(fd, Listener, None)] == StartSlots(fd);
  }

  /** A service that has registered its listener. */
  method Open(env: Env) returns (service: Service)
    requires env.l.fd >= 0 && env.l.handle == 0
    ensures service.Valid() && service.model == Start(env.l.fd).p && service.objs == []
    ensures Reachable(env, Start(env.l.fd)) && Calm(Start(env.l.fd))
    ensures fresh(service) && fresh(service.ev) && fresh(service.ev.fds) && fresh(service.ev.handlers) && fresh(service.ev.args) && fresh(service.analyzer)
  {
    hide Service.Valid, Added;
    service := new Service();
    StartState(env.l.fd);
    var handle := service.AddListener(env.l.fd);
    StartIsInitial(env);
    ghost var steps: seq<Step> := [];
    assert [Start(env.l.fd)][|steps|] == Start(env.l.fd);
  }

  /** The slot of one ready descriptor. */
  method Look(service: Service, fd: int) returns (hit: Option<nat>)
    requires service.Valid()
    ensures Shaped(service.model.ev) && hit == Find(service.model.ev.slots, service.model.ev.max, fd, 0)
    ensures hit.Some? ==>
              hit.value < service.ev.handlers.Length && hit.value < service.ev.args.Length && hit.value < MAX_EVENTS &&
              service.model.ev.slots[hit.value].handler == service.ev.handlers[hit.value] &&
              service.model.ev.slots[hit.value].arg == service.ev.args[hit.value]
  {
    hide Service.Records, Service.Lists;
    var ready := [fd];
    assert ready[0] == fd;
    hit := service.ev.Dispatch(ready);
  }

  method HandleReadable(service: Service, env: Env, ghost s: System, call: Call, now: int, connections: int) returns (taken: bool)
    requires service.Valid() && service.model == s.p && now == s.now && connections == s.connections
    requires Reachable(env, s) && Calm(s) && call.Readable? && Possible(s, call)
    modifies service, Elements(service.objs), service.ev, service.ev.fds, service.ev.handlers, service.ev.args, service.analyzer
    ensures service.Valid() && service.model == Handled(env, s, call).p
    ensures Handled(env, s, call).connections == connections + if taken then 1 else 0
    ensures forall o | o in service.objs && o !in old(service.objs) :: fresh(o)
  {
    hide Service.Valid, Accept, Forward, Stamp, Reachable, Find;
    var hit := Look(service, call.fd);
    taken := false;
    DispatchedLive(env, s, call.fd);
    if hit != None {
      var handler, arg := service.ev.handlers[hit.value], service.ev.args[hit.value];
      if handler == Listener {
        taken := true;
        if call.peer.Connected? {
          service.AcceptConnection(connections + 1, now, call.peer.clientFd, call.peer.serverFd, call.peer.gives);
        } else {
          AcceptNone(s.p, connections + 1, now);
        }
      } else {
        service.Ready();
        var entry := service.objs[arg.value];
        service.Flag(entry);
        if handler == ClientToServer {
          service.ProxyFromClientToServer(entry, now, call.t, env.maxRequests, call.closes);
        } else {
          service.ProxyFromServerToClient(entry, now, call.t, env.maxRequests, call.closes);
        }
      }
    }
  }

  /** In a reachable state a dispatched slot is the listener's, or names a live record with two descriptors. */
  lemma DispatchedLive(env: Env, s: System, fd: int)
    requires Reachable(env, s) && Calm(s) && fd >= 0
    ensures var hit := Find(s.p.ev.slots, s.p.ev.max, fd, 0);
            hit.Some? ==>
              var slot := s.p.ev.slots[hit.value];
              if slot.handler == Listener then Dispatched(s.p, fd) == Ready(Listener, 0, 0)
              else
                && slot.arg.Some? && slot.arg.value < |s.p.conns|
                && s.p.conns[slot.arg.value].inChain && s.p.conns[slot.arg.value].clientFd != s.p.conns[slot.arg.value].serverFd
                && Dispatched(s.p, fd) == Ready(slot.handler, slot.arg.value, s.p.conns[slot.arg.value].connectionId)
  {
    ReachCoherent(env, s);
    assert Slots(s.p, env.l) && Descriptors(s.p, env.l);
    var hit := Find(s.p.ev.slots, s.p.ev.max, fd, 0);
    if hit.Some? {
      assert OwnedSlot(s.p, env.l, hit.value);
    }
  }

  /** The states between calls, from the start. */
  ghost predicate IsService(env: Env, calls: seq<Call>, plan: seq<System>) {
    && |plan| == |calls| + 1 && plan[0] == Start(env.l.fd)
    && forall i | 0 <= i < |calls| :: Calm(plan[i]) && Possible(plan[i], calls[i]) && plan[i + 1] == After(env, plan[i], calls[i])
  }

  method Serve(service: Service, env: Env, ghost s: System, call: Call, now: int, connections: int) returns (now': int, connections': int)
    requires service.Valid() && service.model == s.p && now == s.now && connections == s.connections
    requires Reachable(env, s) && Calm(s) && Possible(s, call)
    modifies service, Elements(service.objs), service.ev, service.ev.fds, service.ev.handlers, service.ev.args, service.analyzer
    ensures service.Valid() && Reachable(env, After(env, s, call)) && Calm(After(env, s, call))
    ensures service.model == After(env, s, call).p && now' == After(env, s, call).now && connections' == After(env, s, call).connections
    ensures forall o | o in service.objs && o !in old(service.objs) :: fresh(o)
  {
    hide Service.Valid, Reachable, SweepAll, Accept, Forward, Dispatched, Commanded;
    AfterReachable(env, s, call);
    now', connections' := now, connections;
    match call {
      case Wait(dt) => now' := now + dt;
      case Readable(_, _, _, _) =>
        var taken := HandleReadable(service, env, s, call, now, connections);
        if taken {
          connections' := connections + 1;
        }
      case Idle(closes) => service.CleanIdleConnections(now, env.timeout, closes);
      case Operate(command) => service.Operate(command);
    }
  }

  /** Starts a service and serves any possible calls: its heap stands for the state they lead to, which is one
      that the two-thread system can reach, with everything coherent. */
  method Run(env: Env, calls: seq<Call>, ghost plan: seq<System>) returns (service: Service, now: int)
    requires env.l.fd >= 0 && env.l.handle == 0 && IsService(env, calls, plan)
    ensures service.Valid() && service.model == plan[|calls|].p && now == plan[|calls|].now
    ensures Reachable(env, plan[|calls|]) && Coherent(service.model, env.l, env.maxRequests)
    ensures fresh(service) && fresh(service.ev) && fresh(service.ev.fds) && fresh(service.ev.handlers) && fresh(service.ev.args) && fresh(service.analyzer)
    ensures forall o | o in service.objs :: fresh(o)
  {
    hide Service.Valid, Reachable, After, Calm, Possible, Coherent;
    service := Open(env);
    var connections := 0;
    now := 0;
    for i := 0 to |calls|
      invariant service.Valid() && service.model == plan[i].p && now == plan[i].now && connections == plan[i].connections
      invariant Reachable(env, plan[i]) && Calm(plan[i])
      invariant fresh(service) && fresh(service.ev) && fresh(service.ev.fds) && fresh(service.ev.handlers) && fresh(service.ev.args) && fresh(service.analyzer)
      invariant forall o | o in service.objs :: fresh(o)
    {
      now, connections := Serve(service, env, plan[i], calls[i], now, connections);
    }
    ReachCoherent(env, plan[|calls|]);
  }

  /** A whole life: start, serve, shut down. Every record is back in the pool, the plugin is not referenced, no
      event slot is live and no descriptor is left open. */
  method Live(env: Env, calls: seq<Call>, closes: bool, ghost plan: seq<System>) returns (service: Service)
    requires env.l.fd >= 0 && env.l.handle == 0 && IsService(env, calls, plan)
    ensures service.Valid() && service.model.live == [] && |service.model.pool| == |service.model.conns|
    ensures service.model.plugin.references == 0 && service.model.ev.num == 0 && service.model.ev.max == 0 && service.open == {}
  {
    hide Service.Valid, Reachable, After, Coherent, Calm, Possible, Start;
    var now;
    service, now := Run(env, calls, plan);
    ReachCoherent(env, plan[|calls|]);
    service.Shutdown(now, env.l, closes, env.maxRequests);
  }
}
