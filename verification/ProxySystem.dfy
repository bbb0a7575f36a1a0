/** The proxy thread and the idle sweeper as one system of interleaved steps.

    The worker mutex makes a handler exclusive from its time stamp to its end, an acceptance atomic, and an
    eviction atomic; the sweeper takes its snapshot and tests an entry's age without that mutex, so both may
    happen in the middle of a handler. */
module ProxySystem {
  import opened Sequences
  import opened EventTable
  import opened PluginHost
  import opened ProxyModel
  import opened ProxyInvariant

  /** `maxHold` bounds how long a handler may run after its time stamp. Times are in microseconds. */
  datatype Env = Env(l: Listening, timeout: int, maxHold: int, maxRequests: int)

  /** The proxy thread: idle, holding a dispatched event, or inside do_proxying. */
  datatype Worker =
    | Resting
    | Ready(handler: Handler, c: nat, id: int)
    | Busy(handler: Handler, c: nat, stamp: int)

  /** The sweeper: idle, having read the clock, or walking its snapshot. `waiting` says the entry at `i`
      tested idle and the mutex is awaited; `touched`, that a handler started on it since the test. */
  datatype Sweeper =
    | Asleep
    | Timed(tv: int)
    | Walking(tv: int, holder: seq<nat>, i: nat, waiting: bool, touched: bool)

  datatype System = System(p: Proxy, now: int, worker: Worker, sweeper: Sweeper, connections: int)

  datatype Step =
    | Tick(dt: int)
    | Dispatch(fd: int)                      // ev_looping finds the slot of a ready descriptor
    | Begin                                  // the handler takes the mutex and stamps `recent`
    | Finish(t: Traffic, closes: bool)       // the rest of do_proxying
    | TakeIn(peer: Peer)                     // accepting_request
    | Decline                                // accept or getpeername failed
    | ReadClock | Snapshot | Test
    | Evict(closes: bool)                    // the sweeper's critical section
    | EndSweep
    | Load(outcome: LoadOutcome) | Unload(closes: bool) | Enable(on: bool) | SafeMode(on: bool)

  ghost predicate CanStep(env: Env, s: System, step: Step) {
    && Shaped(s.p.ev) && InRange(s.p.pool, |s.p.conns|) && InRange(s.p.live, |s.p.conns|)
    && match step
       case Tick(dt) => dt >= 0 && (s.worker.Busy? ==> s.now + dt - s.worker.stamp <= env.maxHold)
       case Dispatch(fd) => s.worker.Resting? && fd >= 0
       case Begin => s.worker.Ready? && s.worker.handler != Listener && s.worker.c < |s.p.conns|
       case Finish(t, closes) => s.worker.Busy? && s.worker.c < |s.p.conns|
       case TakeIn(peer) => s.worker.Ready? && s.worker.handler == Listener && NewPeer(s.p, peer)
       case Decline => s.worker.Ready? && s.worker.handler == Listener
       case ReadClock => s.sweeper.Asleep?
       case Snapshot => s.sweeper.Timed?
       case Test => s.sweeper.Walking? && !s.sweeper.waiting && s.sweeper.i < |s.sweeper.holder| && s.sweeper.holder[s.sweeper.i] < |s.p.conns|
       case Evict(closes) =>
         s.sweeper.Walking? && s.sweeper.waiting && s.sweeper.i < |s.sweeper.holder| && s.sweeper.holder[s.sweeper.i] < |s.p.conns| && !s.worker.Busy?
       case EndSweep => s.sweeper.Walking? && !s.sweeper.waiting && s.sweeper.i == |s.sweeper.holder|
       case _ => true
  }

  /** What a dispatched descriptor makes the proxy thread do next. */
  function Dispatched(p: Proxy, fd: int): Worker
    requires Shaped(p.ev)
  {
    match Find(p.ev.slots, p.ev.max, fd, 0)
    case None => Resting
    case Some(i) =>
      var s := p.ev.slots[i];
      if s.handler == Listener || s.arg.None? || s.arg.value >= |p.conns| then Ready(Listener, 0, 0)
      else Ready(s.handler, s.arg.value, p.conns[s.arg.value].connectionId)
  }

  function Do(env: Env, s: System, step: Step): System
    requires CanStep(env, s, step)
  {
    match step
    case Tick(dt) => s.(now := s.now + dt)
    case Dispatch(fd) => s.(worker := Dispatched(s.p, fd))
    case Begin =>
      var c := s.worker.c;
      if s.p.conns[c].inChain then
        s.(p := Stamp(s.p, c, s.now), worker := Busy(s.worker.handler, c, s.now), sweeper := Touched(s.sweeper, c))
      else s.(worker := Resting)
    case Finish(t, closes) =>
      s.(p := Forward(s.p, s.worker.c, s.worker.handler == ClientToServer, t, env.maxRequests, closes), worker := Resting)
    case TakeIn(peer) => s.(p := Accept(s.p, s.connections + 1, s.now, peer), worker := Resting, connections := s.connections + 1)
    case Decline => s.(worker := Resting)
    case ReadClock => s.(sweeper := Timed(s.now))
    case Snapshot => s.(sweeper := Walking(s.sweeper.tv, s.p.live, 0, false, false))
    case Test =>
      if s.sweeper.tv - s.p.conns[s.sweeper.holder[s.sweeper.i]].recent > env.timeout then
        s.(sweeper := s.sweeper.(waiting := true, touched := false))
      else s.(sweeper := s.sweeper.(i := s.sweeper.i + 1))
    case Evict(closes) =>
      s.(p := Close(s.p, s.sweeper.holder[s.sweeper.i], closes), sweeper := s.sweeper.(i := s.sweeper.i + 1, waiting := false))
    case EndSweep => s.(sweeper := Asleep)
    case Load(outcome) => s.(p := s.p.(plugin := Loaded(s.p.plugin, outcome).0))
    case Unload(closes) => s.(p := s.p.(plugin := Unloaded(s.p.plugin, closes).0))
    case Enable(on) => s.(p := s.p.(plugin := Enabled(s.p.plugin, on)))
    case SafeMode(on) => s.(p := s.p.(plugin := s.p.plugin.(safeMode := on)))
  }

  function Touched(w: Sweeper, c: nat): Sweeper {
    if w.Walking? && w.waiting && w.i < |w.holder| && w.holder[w.i] == c then w.(touched := true) else w
  }

  // ---------------------------------------------------------------- the invariant of every run

  ghost predicate Clocks(s: System) {
    forall c | 0 <= c < |s.p.conns| :: s.p.conns[c].recent <= s.now && s.p.conns[c].connectionId <= s.connections
  }

  /** A dispatched record still carries the connection that was dispatched; a handler's is in the chain. */
  ghost predicate WorkerHolds(s: System) {
    match s.worker
    case Resting => true
    case Ready(h, c, id) => h != Listener ==> c < |s.p.conns| && s.p.conns[c].connectionId == id
    case Busy(h, c, stamp) => h != Listener && c < |s.p.conns| && s.p.conns[c].inChain && s.p.conns[c].recent == stamp
  }

  ghost predicate WorkerOk(env: Env, s: System) {
    WorkerHolds(s) && (s.worker.Busy? ==> s.now - s.worker.stamp <= env.maxHold)
  }

  /** A snapshot entry yet to be tested is in the chain, or was active too recently to test idle. */
  ghost predicate Pending(env: Env, s: System, tv: int, c: nat) {
    c < |s.p.conns| && (s.p.conns[c].inChain || s.p.conns[c].recent >= tv - env.maxHold)
  }

  /** A snapshot entry already passed is out of the chain, or was active since `tv - timeout`. */
  ghost predicate Passed(env: Env, s: System, tv: int, c: nat) {
    c < |s.p.conns| && (!s.p.conns[c].inChain || tv - s.p.conns[c].recent <= env.timeout)
  }

  /** The entry awaiting eviction is a live idle connection, unless a handler has touched it. */
  ghost predicate Chosen(env: Env, s: System, tv: int, c: nat, touched: bool) {
    c < |s.p.conns| &&
    if touched then s.p.conns[c].recent >= tv
    else s.p.conns[c].inChain && tv - s.p.conns[c].recent > env.timeout
  }

  /** The sweeper's clock reading is past, and so is every entry before the current one. */
  ghost predicate SweeperBehind(env: Env, s: System) {
    match s.sweeper
    case Asleep => true
    case Timed(tv) => tv <= s.now
    case Walking(tv, holder, i, waiting, touched) =>
      tv <= s.now && i <= |holder| && forall j | 0 <= j < i :: Passed(env, s, tv, holder[j])
  }

  ghost predicate SweeperAhead(env: Env, s: System) {
    match s.sweeper
    case Asleep => true
    case Timed(tv) => true
    case Walking(tv, holder, i, waiting, touched) =>
      && Distinct(holder)
      && (forall j | i <= j < |holder| :: Pending(env, s, tv, holder[j]))
      && (waiting ==> i < |holder| && Chosen(env, s, tv, holder[i], touched))
  }

  ghost predicate SweeperOk(env: Env, s: System) {
    SweeperBehind(env, s) && SweeperAhead(env, s)
  }

  ghost predicate Inv(env: Env, s: System) {
    && Coherent(s.p, env.l, env.maxRequests)
    && Clocks(s) && WorkerOk(env, s) && SweeperOk(env, s)
  }

  /** The entry the sweeper is about to close is in the chain and truly idle. */
  predicate ProperEviction(env: Env, s: System) {
    && s.sweeper.Walking? && s.sweeper.i < |s.sweeper.holder| && s.sweeper.holder[s.sweeper.i] < |s.p.conns|
    && var conn := s.p.conns[s.sweeper.holder[s.sweeper.i]];
       conn.inChain && s.sweeper.tv - conn.recent > env.timeout
  }

  /** The entry the sweeper is about to close is in the chain. */
  predicate HitsChain(s: System) {
    && s.sweeper.Walking? && s.sweeper.i < |s.sweeper.holder| && s.sweeper.holder[s.sweeper.i] < |s.p.conns|
    && s.p.conns[s.sweeper.holder[s.sweeper.i]].inChain
  }

  // ---------------------------------------------------------------- frames of the operations

  /** Only `c` changed, and of `c` only what a handler or a close may change. */
  ghost predicate OnlyLeaves(p: Proxy, q: Proxy, c: nat) {
    && c < |p.conns| == |q.conns|
    && (forall d | 0 <= d < |p.conns| && d != c :: q.conns[d] == p.conns[d])
    && q.conns[c].recent == p.conns[c].recent && q.conns[c].connectionId == p.conns[c].connectionId
    && q.conns[c].clientHandle == p.conns[c].clientHandle && q.conns[c].serverHandle == p.conns[c].serverHandle
    && (q.conns[c].inChain ==> p.conns[c].inChain)
  }

  lemma ForwardFrame(p: Proxy, c: nat, fromClient: bool, t: Traffic, maxRequests: int, closes: bool)
    requires c < |p.conns| && Shaped(p.ev)
    ensures OnlyLeaves(p, Forward(p, c, fromClient, t, maxRequests, closes), c)
  {
    hide Removed, Released, Without, WriteTotal, Analyzed;
  }

  lemma CloseFrame(p: Proxy, c: nat, closes: bool)
    requires c < |p.conns| && Shaped(p.ev)
    ensures OnlyLeaves(p, Close(p, c, closes), c) && !Close(p, c, closes).conns[c].inChain
  {
    hide Removed, Released, Without;
  }

  /** An acceptance leaves every record alone but one, which it stamps and numbers. */
  lemma AcceptFrame(p: Proxy, id: int, now: int, peer: Peer)
    requires Shaped(p.ev) && InRange(p.pool, |p.conns|)
    ensures var q := Accept(p, id, now, peer);
            && |p.conns| <= |q.conns|
            && forall d | 0 <= d < |q.conns| :: (d < |p.conns| && q.conns[d] == p.conns[d]) || (q.conns[d].recent == now && q.conns[d].connectionId == id)
  {
    hide Added, Allocated;
  }

  // ---------------------------------------------------------------- what every step keeps

  /** In every run: stamps and numbers are never ahead, and the worker's record stays its own. */
  lemma StepHolds(env: Env, s: System, step: Step)
    requires CanStep(env, s, step) && Clocks(s) && WorkerHolds(s)
    ensures Clocks(Do(env, s, step)) && WorkerHolds(Do(env, s, step))
  {
    hide Accept, Forward, Close, Find;
    match step {
      case TakeIn(peer) => AcceptFrame(s.p, s.connections + 1, s.now, peer);
      case Finish(t, closes) => ForwardFrame(s.p, s.worker.c, s.worker.handler == ClientToServer, t, env.maxRequests, closes);
      case Evict(closes) => CloseFrame(s.p, s.sweeper.holder[s.sweeper.i], closes);
      case _ =>
    }
  }

  /** A record that is in the chain after a step was there before with the same stamp, or is newly stamped. */
  ghost predicate RecordsMove(p: Proxy, q: Proxy, now: int) {
    && |p.conns| <= |q.conns|
    && forall c | 0 <= c < |p.conns| ::
         (q.conns[c].inChain ==> p.conns[c].inChain && q.conns[c].recent == p.conns[c].recent) || q.conns[c].recent >= now
  }

  lemma StepMoves(env: Env, s: System, step: Step)
    requires CanStep(env, s, step)
    ensures RecordsMove(s.p, Do(env, s, step).p, s.now)
  {
    hide Accept, Forward, Close, Find;
    match step {
      case TakeIn(peer) => AcceptFrame(s.p, s.connections + 1, s.now, peer);
      case Finish(t, closes) => ForwardFrame(s.p, s.worker.c, s.worker.handler == ClientToServer, t, env.maxRequests, closes);
      case Evict(closes) => CloseFrame(s.p, s.sweeper.holder[s.sweeper.i], closes);
      case _ =>
    }
  }

  /** In every run: an entry the sweeper is done with is out of the chain or was active since. */
  lemma StepBehind(env: Env, s: System, step: Step)
    requires CanStep(env, s, step) && SweeperBehind(env, s) && env.timeout >= 0
    ensures SweeperBehind(env, Do(env, s, step))
  {
    hide Accept, Forward, Close, Find, Stamp;
    var s' := Do(env, s, step);
    StepMoves(env, s, step);
    if step.Evict? {
      CloseFrame(s.p, s.sweeper.holder[s.sweeper.i], step.closes);
    }
    if s.sweeper.Walking? && s'.sweeper.Walking? {
      forall j | 0 <= j < s'.sweeper.i ensures Passed(env, s', s.sweeper.tv, s.sweeper.holder[j]) {
        if j < s.sweeper.i {
          assert Passed(env, s, s.sweeper.tv, s.sweeper.holder[j]);
        }
      }
    }
  }

  lemma PeerIsFresh(env: Env, p: Proxy, peer: Peer)
    requires Coherent(p, env.l, env.maxRequests) && NewPeer(p, peer)
    ensures FreshPeer(p, env.l, peer)
  {
    hide Lists, Slots, Keeps, FreshPeer, NewPeer, Opened;
    NewIsFresh(p, env.l, peer);
  }

  lemma CoherentLists(env: Env, p: Proxy)
    requires Coherent(p, env.l, env.maxRequests)
    ensures Lists(p)
  {
  }

  lemma CoherentParts(env: Env, p: Proxy, c: nat)
    requires Coherent(p, env.l, env.maxRequests) && c < |p.conns|
    ensures Lists(p) && Slots(p, env.l) && Opened(p, env.l) && Keeps(p.plugin, DataOf(p.conns, p.live))
    ensures (forall d | 0 <= d < |p.conns| :: Streams(p.conns[d], env.maxRequests)) && Streams(p.conns[c].(inChain := false), env.maxRequests)
  {
  }

  /** As long as evictions hit the chain everything stays coherent. */
  lemma StepCoherent(env: Env, s: System, step: Step)
    requires Coherent(s.p, env.l, env.maxRequests) && WorkerHolds(s) && CanStep(env, s, step) && (step.Evict? ==> HitsChain(s))
    ensures Coherent(Do(env, s, step).p, env.l, env.maxRequests)
  {
    hide Coherent, Accept, Forward, Close, Find, NewPeer;
    var p, l, max := s.p, env.l, env.maxRequests;
    match step {
      case Begin => StampKeeps(p, l, max, s.worker.c, s.now);
      case Finish(t, closes) => ForwardKeeps(p, l, max, s.worker.c, s.worker.handler == ClientToServer, t, closes);
      case TakeIn(peer) =>
        PeerIsFresh(env, p, peer);
        AcceptKeeps(p, l, max, s.connections + 1, s.now, peer);
      case Evict(closes) =>
        var c := s.sweeper.holder[s.sweeper.i];
        CoherentParts(env, p, c);
        CloseKeeps(p, l, max, c, closes);
      case Load(outcome) => CommandCoherent(env, p, outcome, false, false);
      case Unload(closes) => CommandCoherent(env, p, Found, closes, false);
      case Enable(on) => CommandCoherent(env, p, Found, false, on);
      case SafeMode(on) => CommandCoherent(env, p, Found, false, on);
      case _ =>
    }
  }

  lemma CommandCoherent(env: Env, p: Proxy, outcome: LoadOutcome, closes: bool, on: bool)
    requires Coherent(p, env.l, env.maxRequests)
    ensures Coherent(p.(plugin := Loaded(p.plugin, outcome).0), env.l, env.maxRequests)
    ensures Coherent(p.(plugin := Unloaded(p.plugin, closes).0), env.l, env.maxRequests)
    ensures Coherent(p.(plugin := Enabled(p.plugin, on)), env.l, env.maxRequests)
    ensures Coherent(p.(plugin := p.plugin.(safeMode := on)), env.l, env.maxRequests)
  {
    hide Slots, DataOf, Distinct, Opened, Loaded, Unloaded, Enabled;
    PluginOnly(p, env.l, Loaded(p.plugin, outcome).0);
    PluginOnly(p, env.l, Unloaded(p.plugin, closes).0);
    PluginOnly(p, env.l, Enabled(p.plugin, on));
    PluginOnly(p, env.l, p.plugin.(safeMode := on));
    CommandsKeep(p.plugin, DataOf(p.conns, p.live), outcome, closes, on, 0, false);
  }

  // ---------------------------------------------------------------- what bounded handlers keep

  /** When only one connection changed, and at most left the chain, the sweeper's promises survive as
      long as that connection was stamped no longer than `maxHold` ago. */
  lemma SweeperKept(env: Env, s: System, q: Proxy, c: nat)
    requires SweeperAhead(env, s) && SweeperBehind(env, s) && 0 <= env.maxHold <= env.timeout
    requires OnlyLeaves(s.p, q, c) && s.p.conns[c].recent >= s.now - env.maxHold
    ensures SweeperAhead(env, s.(p := q, worker := Resting))
  {
    var s' := s.(p := q, worker := Resting);
    if s.sweeper.Walking? {
      var tv, holder, i := s.sweeper.tv, s.sweeper.holder, s.sweeper.i;
      forall j | i <= j < |holder| ensures Pending(env, s', tv, holder[j]) {
        assert Pending(env, s, tv, holder[j]);
      }
    }
  }

  lemma FinishKeeps(env: Env, s: System, t: Traffic, closes: bool)
    requires Inv(env, s) && CanStep(env, s, Finish(t, closes)) && 0 <= env.maxHold <= env.timeout
    ensures Inv(env, Do(env, s, Finish(t, closes)))
  {
    hide Coherent, Forward, SweeperBehind, SweeperAhead;
    Always(env, s, Finish(t, closes));
    ForwardFrame(s.p, s.worker.c, s.worker.handler == ClientToServer, t, env.maxRequests, closes);
    SweeperKept(env, s, Forward(s.p, s.worker.c, s.worker.handler == ClientToServer, t, env.maxRequests, closes), s.worker.c);
  }

  /** What of the invariant needs no bound on handlers. */
  lemma Always(env: Env, s: System, step: Step)
    requires Inv(env, s) && CanStep(env, s, step) && (step.Evict? ==> HitsChain(s)) && env.timeout >= 0
    ensures var s' := Do(env, s, step); Coherent(s'.p, env.l, env.maxRequests) && Clocks(s') && WorkerHolds(s') && SweeperBehind(env, s')
  {
    hide Coherent, Clocks, WorkerHolds, SweeperBehind, SweeperAhead, CanStep, Do, HitsChain;
    StepCoherent(env, s, step);
    StepHolds(env, s, step);
    StepBehind(env, s, step);
  }

  lemma BeginKeeps(env: Env, s: System)
    requires Inv(env, s) && CanStep(env, s, Begin) && 0 <= env.maxHold <= env.timeout
    ensures Inv(env, Do(env, s, Begin))
  {
    hide Coherent, Passed;
    Always(env, s, Begin);
    var s' := Do(env, s, Begin);
    if s.sweeper.Walking? {
      Ahead(env, s, s', s.sweeper.i);
    }
  }

  /** Entries still ahead stay as promised when records only leave the chain or are stamped anew. */
  lemma Ahead(env: Env, s: System, s': System, i: nat)
    requires SweeperAhead(env, s) && SweeperBehind(env, s) && s.sweeper.Walking? && env.maxHold >= 0 && i >= s.sweeper.i
    requires |s.p.conns| <= |s'.p.conns|
    requires forall c | 0 <= c < |s.p.conns| :: s'.p.conns[c].recent >= s.now - env.maxHold || (s'.p.conns[c].recent == s.p.conns[c].recent && s'.p.conns[c].inChain == s.p.conns[c].inChain)
    ensures forall j | i <= j < |s.sweeper.holder| :: Pending(env, s', s.sweeper.tv, s.sweeper.holder[j])
  {
    forall j | i <= j < |s.sweeper.holder| ensures Pending(env, s', s.sweeper.tv, s.sweeper.holder[j]) {
      assert Pending(env, s, s.sweeper.tv, s.sweeper.holder[j]);
    }
  }

  lemma TakeInKeeps(env: Env, s: System, peer: Peer)
    requires Inv(env, s) && CanStep(env, s, TakeIn(peer)) && 0 <= env.maxHold <= env.timeout
    ensures Inv(env, Do(env, s, TakeIn(peer)))
  {
    hide Coherent, Accept, SweeperBehind;
    Always(env, s, TakeIn(peer));
    CoherentLists(env, s.p);
    if peer.Connected? {
      var c, a, b := Accepted(s.p, s.connections + 1, s.now, peer);
    } else {
      AcceptNone(s.p, s.connections + 1, s.now);
    }
    if s.sweeper.Walking? {
      AcceptFrame(s.p, s.connections + 1, s.now, peer);
      Ahead(env, s, Do(env, s, TakeIn(peer)), s.sweeper.i);
    }
  }

  lemma EvictKeeps(env: Env, s: System, closes: bool)
    requires Inv(env, s) && CanStep(env, s, Evict(closes)) && 0 <= env.maxHold <= env.timeout && !s.sweeper.touched
    ensures Inv(env, Do(env, s, Evict(closes)))
  {
    hide Coherent, Close, SweeperBehind;
    var c, s' := s.sweeper.holder[s.sweeper.i], Do(env, s, Evict(closes));
    assert Chosen(env, s, s.sweeper.tv, c, false);
    Always(env, s, Evict(closes));
    CloseFrame(s.p, c, closes);
    forall j | s.sweeper.i + 1 <= j < |s.sweeper.holder| ensures Pending(env, s', s.sweeper.tv, s.sweeper.holder[j]) {
      assert Pending(env, s, s.sweeper.tv, s.sweeper.holder[j]);
    }
  }

  /** Steps that leave the records alone. */
  lemma QuietKeeps(env: Env, s: System, step: Step)
    requires Inv(env, s) && CanStep(env, s, step) && 0 <= env.maxHold <= env.timeout
    requires !(step.Begin? || step.Finish? || step.TakeIn? || step.Evict?)
    ensures Inv(env, Do(env, s, step))
  {
    hide Coherent, Find, SweeperBehind, Loaded, Unloaded, Enabled;
    Always(env, s, step);
    var s' := Do(env, s, step);
    if s.sweeper.Walking? && s'.sweeper.Walking? {
      Ahead(env, s, s', s'.sweeper.i);
      if step.Test? { assert Pending(env, s, s.sweeper.tv, s.sweeper.holder[s.sweeper.i]); }
    } else if step.Snapshot? {
      CoherentLists(env, s.p);
      LivePending(env, s, s.sweeper.tv);
    }
  }

  lemma LivePending(env: Env, s: System, tv: int)
    requires Lists(s.p)
    ensures Distinct(s.p.live) && forall j | 0 <= j < |s.p.live| :: Pending(env, s, tv, s.p.live[j])
  {
    forall j | 0 <= j < |s.p.live| ensures Pending(env, s, tv, s.p.live[j]) {
      assert s.p.live[j] in s.p.live;
    }
  }

  lemma StepKeeps(env: Env, s: System, step: Step)
    requires Inv(env, s) && CanStep(env, s, step) && 0 <= env.maxHold <= env.timeout
    requires step.Evict? ==> !s.sweeper.touched
    ensures Inv(env, Do(env, s, step))
  {
    hide Inv, CanStep, Do;
    match step {
      case Begin => BeginKeeps(env, s);
      case Finish(t, closes) => FinishKeeps(env, s, t, closes);
      case TakeIn(peer) => TakeInKeeps(env, s, peer);
      case Evict(closes) => EvictKeeps(env, s, closes);
      case _ => QuietKeeps(env, s, step);
    }
  }
}
