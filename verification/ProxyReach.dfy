/** What the proxy's event count is in every reachable state, and what the final sweep leaves of one. */
module ProxyReach {
  import opened EventTable
  import opened PluginHost
  import opened ProxyModel
  import opened ProxyInvariant
  import opened ProxySystem
  import opened ProxyRuns

  /** The most connections whose events fit beside the listener's. */
  const CAPACITY := 511

  ghost predicate AllRegistered(p: Proxy) {
    forall c | 0 <= c < |p.conns| && p.conns[c].inChain :: p.conns[c].clientHandle >= 0 && p.conns[c].serverHandle >= 0
  }

  lemma OnlyLeavesRegistered(p: Proxy, q: Proxy, c: nat)
    requires OnlyLeaves(p, q, c) && AllRegistered(p)
    ensures AllRegistered(q)
  {
  }

  lemma QuietRegistered(env: Env, s: System, step: Step)
    requires CanStep(env, s, step) && !step.TakeIn? && !step.Finish? && !step.Evict? && AllRegistered(s.p)
    ensures AllRegistered(Do(env, s, step).p)
  {
  }

  lemma AcceptRegistered(p: Proxy, l: Listening, maxRequests: int, id: int, now: int, peer: Peer)
    requires Coherent(p, l, maxRequests) && Lists(p) && peer.Connected? && FreshPeer(p, l, peer) && AllRegistered(p)
    requires Accept(p, id, now, peer).entries <= CAPACITY
    ensures AllRegistered(Accept(p, id, now, peer))
  {
    hide Coherent, Accept, Added, Allocated, Lists, FreshPeer, Shaped;
    var c, a, b := Accepted(p, id, now, peer);
    EventCount(p, l, maxRequests);
    RoomForAccept(p, l, maxRequests, id, now, peer);
  }

  lemma TakeInRegistered(env: Env, s: System, peer: Peer)
    requires Coherent(s.p, env.l, env.maxRequests) && CanStep(env, s, TakeIn(peer)) && AllRegistered(s.p)
    requires Do(env, s, TakeIn(peer)).p.entries <= CAPACITY
    ensures AllRegistered(Do(env, s, TakeIn(peer)).p)
  {
    hide Coherent, Accept, AllRegistered, NewPeer, FreshPeer;
    CoherentLists(env, s.p);
    if peer.Connected? {
      PeerIsFresh(env, s.p, peer);
      AcceptRegistered(s.p, env.l, env.maxRequests, s.connections + 1, s.now, peer);
    } else {
      AcceptNone(s.p, s.connections + 1, s.now);
    }
  }

  lemma StepRegistered(env: Env, s: System, step: Step)
    requires Coherent(s.p, env.l, env.maxRequests) && CanStep(env, s, step) && AllRegistered(s.p)
    requires Do(env, s, step).p.entries <= CAPACITY
    ensures AllRegistered(Do(env, s, step).p)
  {
    hide Coherent, AllRegistered, Forward, Close, Accept;
    match step {
      case TakeIn(peer) => TakeInRegistered(env, s, peer);
      case Finish(t, closes) =>
        var fromClient := s.worker.handler == ClientToServer;
        ForwardFrame(s.p, s.worker.c, fromClient, t, env.maxRequests, closes);
        OnlyLeavesRegistered(s.p, Forward(s.p, s.worker.c, fromClient, t, env.maxRequests, closes), s.worker.c);
      case Evict(closes) =>
        var c := s.sweeper.holder[s.sweeper.i];
        CloseFrame(s.p, c, closes);
        OnlyLeavesRegistered(s.p, Close(s.p, c, closes), c);
      case _ => QuietRegistered(env, s, step);
    }
  }

  lemma {:induction false} RunRegistered(env: Env, states: seq<System>, steps: seq<Step>, n: nat)
    requires IsRun(env, states, steps) && n <= |steps| && AllHit(states, steps, n)
    requires forall i | 0 <= i <= n :: states[i].p.entries <= CAPACITY
    ensures AllRegistered(states[n].p)
  {
    if n > 0 {
      hide Coherent, CanStep, Do, Initial, AllRegistered, HitsChain;
      RunRegistered(env, states, steps, n - 1);
      RunCoherent(env, states, steps, n - 1);
      assert CanStep(env, states[n - 1], steps[n - 1]) && states[n] == Do(env, states[n - 1], steps[n - 1]);
      StepRegistered(env, states[n - 1], steps[n - 1]);
    }
  }

  /** Along a run whose evictions hit the chain the loop counts the listener and two events for each connection exactly as long as no more
      than 511 connections have been open at once. */
  lemma EventCountOverRuns(env: Env, states: seq<System>, steps: seq<Step>, n: nat)
    requires IsRun(env, states, steps) && n <= |steps| && AllHit(states, steps, n)
    ensures (forall i | 0 <= i <= n :: states[i].p.ev.num == 1 + 2 * states[i].p.entries) <==>
            forall i | 0 <= i <= n :: states[i].p.entries <= CAPACITY
  {
    hide Coherent, Initial, AllRegistered, HitsChain;
    forall i | 0 <= i <= n
      ensures states[i].p.ev.num <= MAX_EVENTS
      ensures states[i].p.ev.num == 1 + 2 * states[i].p.entries <==> AllRegistered(states[i].p)
    {
      RunCoherent(env, states, steps, i);
      CountBound(env, states[i].p);
    }
    if forall i | 0 <= i <= n :: states[i].p.entries <= CAPACITY {
      forall i | 0 <= i <= n ensures AllRegistered(states[i].p) {
        RunRegistered(env, states, steps, i);
      }
    }
  }

  lemma CountBound(env: Env, p: Proxy)
    requires Coherent(p, env.l, env.maxRequests)
    ensures p.ev.num <= MAX_EVENTS && (p.ev.num == 1 + 2 * p.entries <==> AllRegistered(p))
  {
    EventCount(p, env.l, env.maxRequests);
  }

  /** Shutdown, after any run whose evictions hit the chain: the final sweep, with the other threads stopped and by
      the clock of that moment, closes everything. */
  lemma FinalSweepDrains(env: Env, states: seq<System>, steps: seq<Step>, n: nat, closes: bool)
    requires IsRun(env, states, steps) && n <= |steps| && AllHit(states, steps, n)
    ensures var s := states[n];
            && Shaped(s.p.ev) && InRange(s.p.live, |s.p.conns|)
            && var q := SweepAll(s.p, s.p.live, s.now, -1000000, closes);
               && q.live == [] && q.entries == 0 && |q.pool| == |q.conns| && q.plugin.references == 0
               && q.ev.num == 1 && (forall i: int :: Live(q.ev, i) <==> i == env.l.handle) && q.open == {env.l.fd}
  {
    hide Coherent, SweepAll, HitsChain;
    RunCoherent(env, states, steps, n);
    RunHolds(env, states, steps, n);
    var s := states[n];
    CoherentLists(env, s.p);
    FinalSweep(s.p, env.l, env.maxRequests, s.now, closes);
    Drained(SweepAll(s.p, s.p.live, s.now, -1000000, closes), env.l, env.maxRequests);
  }

  /** Why the clock must not go back at shutdown: one second less, and a live connection is left. */
  lemma BackwardShutdown(env: Env) returns (states: seq<System>, steps: seq<Step>)
    requires env.l.fd >= 0 && env.l.handle == 0 && env.maxHold >= 0
    ensures IsRun(env, states, steps) && AllHit(states, steps, |steps|)
    ensures var s := states[|steps|];
            && Shaped(s.p.ev) && InRange(s.p.live, |s.p.conns|)
            && SweepAll(s.p, s.p.live, s.now - 1000000, -1000000, false).live != []
  {
    hide Coherent, SweepAll;
    states, steps := OneConnection(env);
    RunCoherent(env, states, steps, |steps|);
    FinalSweep(states[|steps|].p, env.l, env.maxRequests, states[|steps|].now - 1000000, false);
  }
}
