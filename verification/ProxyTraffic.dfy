/** What passes through a connection over a run: its counters and streams are those of the packets handled since
    it was accepted, and a handler ends it exactly when reading, the allowance or writing gives out. */
module ProxyTraffic {
  import opened EventTable
  import opened PluginHost
  import opened ProxyModel
  import opened ProxyInvariant
  import opened ProxySystem
  import opened ProxyRuns

  // ---------------------------------------------------------------- writing

  function Sum(s: seq<int>): int {
    if s == [] then 0 else s[0] + Sum(s[1..])
  }

  predicate Positive(s: seq<int>) {
    forall k | 0 <= k < |s| :: s[k] > 0
  }

  /** The first `k` answers are all positive and write `total` bytes. */
  predicate Writes(writes: seq<int>, k: int, total: int) {
    0 <= k <= |writes| && Positive(writes[..k]) && Sum(writes[..k]) == total
  }

  lemma WritesFirst(writes: seq<int>, k: int, total: int)
    requires writes != [] && k > 0
    ensures Writes(writes, k, total) <==> writes[0] > 0 && Writes(writes[1..], k - 1, total - writes[0])
  {
    if k <= |writes| {
      var s := writes[..k];
      assert s[0] == writes[0] && s[1..] == writes[1..][..k - 1];
      assert Positive(s) <==> writes[0] > 0 && Positive(s[1..]) by {
        if writes[0] > 0 && Positive(s[1..]) {
          forall j | 0 <= j < |s| ensures s[j] > 0 {
            if j > 0 { assert s[1..][j - 1] > 0; }
          }
        }
      }
    }
  }

  /** What is written is what a positive prefix of the answers adds up to, and no further answer can be added
      to it: everything is out, or the next answer is none, a failure, or more than was offered. */
  lemma {:induction false} Written(left: nat, writes: seq<int>) returns (k: nat)
    ensures Writes(writes, k, WriteTotal(left, writes))
    ensures WriteTotal(left, writes) == left || k == |writes| || writes[k] <= 0 || writes[k] > left - WriteTotal(left, writes)
  {
    if left == 0 || writes == [] || writes[0] <= 0 || writes[0] > left {
      k := 0;
      assert writes[..0] == [];
    } else {
      k := Written(left - writes[0], writes[1..]);
      WritesFirst(writes, k + 1, WriteTotal(left, writes));
      k := k + 1;
    }
  }

  lemma {:induction false} PositiveSum(s: seq<int>)
    requires Positive(s)
    ensures Sum(s) >= |s|
  {
    if s != [] { PositiveSum(s[1..]); }
  }

  /** Everything is written exactly when some prefix of the answers is positive and adds up to it. */
  lemma {:induction false} WrittenExactly(left: nat, writes: seq<int>)
    ensures WriteTotal(left, writes) == left <==> exists k :: Writes(writes, k, left)
  {
    if WriteTotal(left, writes) == left {
      var k := Written(left, writes);
      assert Writes(writes, k, left);
    }
    if k :| Writes(writes, k, left) {
      if k > 0 {
        WritesFirst(writes, k, left);
        PositiveSum(writes[1..][..k - 1]);
        assert Writes(writes[1..], k - 1, left - writes[0]);
        WrittenExactly(left - writes[0], writes[1..]);
      }
    }
  }

  // ---------------------------------------------------------------- counting

  /** What a connection has seen. */
  datatype Tally = Tally(requests: int, responses: int, sent: int, received: int,
                         fromClient: seq<nat>, toServer: seq<nat>, fromServer: seq<nat>, toClient: seq<nat>)

  const NOTHING := Tally(0, 0, 0, 0, [], [], [], [])

  function TallyOf(conn: Conn): Tally {
    Tally(conn.requestCount, conn.responseCount, conn.bytesSent, conn.bytesReceived,
          conn.fromClient, conn.toServer, conn.fromServer, conn.toClient)
  }

  /** One more packet: counted and carried as far as it was written, but dropped beyond the allowance. */
  function Packet(tally: Tally, isClient: bool, t: Traffic, maxRequests: int): Tally {
    var written := WriteTotal(|t.bytes|, t.writes);
    if t.bytes == [] then tally
    else if isClient && tally.requests > maxRequests then tally.(fromClient := tally.fromClient + t.bytes)
    else if isClient then
      Tally(tally.requests + 1, tally.responses, tally.sent + written, tally.received,
            tally.fromClient + t.bytes, tally.toServer + t.bytes[..written], tally.fromServer, tally.toClient)
    else
      Tally(tally.requests, tally.responses + 1, tally.sent, tally.received + written,
            tally.fromClient, tally.toServer, tally.fromServer + t.bytes, tally.toClient + t.bytes[..written])
  }

  /** Step `n` accepts a connection into record `c`. */
  predicate TakesRecord(s: System, step: Step, c: nat) {
    step.TakeIn? && step.peer.Connected? && c == if s.p.pool != [] then s.p.pool[0] else |s.p.conns|
  }

  /** Step `n` is the end of a handler of record `c`. */
  predicate HandlesRecord(s: System, step: Step, c: nat) {
    step.Finish? && s.worker.Busy? && s.worker.c == c
  }

  /** What the packets handled for record `c` since its last acceptance add up to. */
  function Since(env: Env, states: seq<System>, steps: seq<Step>, c: nat, n: nat): Tally
    requires |states| == |steps| + 1 && n <= |steps|
  {
    if n == 0 then NOTHING
    else
      var before, s, step := Since(env, states, steps, c, n - 1), states[n - 1], steps[n - 1];
      if TakesRecord(s, step, c) then NOTHING
      else if HandlesRecord(s, step, c) then Packet(before, s.worker.handler == ClientToServer, step.t, env.maxRequests)
      else before
  }

  lemma CloseTally(p: Proxy, c: nat, closes: bool, d: nat)
    requires Shaped(p.ev) && c < |p.conns| && d < |p.conns|
    ensures var q := Close(p, c, closes); |q.conns| == |p.conns| && TallyOf(q.conns[d]) == TallyOf(p.conns[d])
  {
  }

  lemma ForwardTally(p: Proxy, c: nat, fromClient: bool, t: Traffic, maxRequests: int, closes: bool, d: nat)
    requires Shaped(p.ev) && c < |p.conns| && d < |p.conns|
    ensures var q := Forward(p, c, fromClient, t, maxRequests, closes);
            && |q.conns| == |p.conns|
            && TallyOf(q.conns[d]) == if d == c then Packet(TallyOf(p.conns[c]), fromClient, t, maxRequests) else TallyOf(p.conns[d])
  {
    hide Close, WriteTotal, Analyzed;
    var conn, q := p.conns[c], p.(plugin := Analyzed(p.plugin, p.conns[c].data, t.crashes));
    CloseTally(p, c, closes, d);
    CloseTally(SetConn(q, c, conn.(fromClient := conn.fromClient + t.bytes)), c, closes, d);
    CloseTally(SetConn(q, c, Carried(conn, fromClient, t.bytes, WriteTotal(|t.bytes|, t.writes))), c, closes, d);
  }

  /** A handler leaves its connection in the chain exactly when it read something, the client is within its
      allowance, and everything was written; it never puts one back. */
  lemma ForwardEnds(p: Proxy, c: nat, fromClient: bool, t: Traffic, maxRequests: int, closes: bool)
    requires Shaped(p.ev) && c < |p.conns| && p.conns[c].inChain
    ensures var q := Forward(p, c, fromClient, t, maxRequests, closes);
            && c < |q.conns|
            && (q.conns[c].inChain <==>
                t.bytes != [] && (fromClient ==> p.conns[c].requestCount <= maxRequests) && exists k :: Writes(t.writes, k, |t.bytes|))
  {
    WrittenExactly(|t.bytes|, t.writes);
    hide Close, WriteTotal, Analyzed, Writes;
    var conn, q := p.conns[c], p.(plugin := Analyzed(p.plugin, p.conns[c].data, t.crashes));
    CloseFrame(p, c, closes);
    CloseFrame(SetConn(q, c, conn.(fromClient := conn.fromClient + t.bytes)), c, closes);
    CloseFrame(SetConn(q, c, Carried(conn, fromClient, t.bytes, WriteTotal(|t.bytes|, t.writes))), c, closes);
  }

  lemma AcceptTally(p: Proxy, id: int, now: int, peer: Peer, d: nat)
    requires Shaped(p.ev) && InRange(p.pool, |p.conns|)
    ensures var q, c := Accept(p, id, now, peer), if p.pool != [] then p.pool[0] else |p.conns|;
            && |p.conns| <= |q.conns| && (d < |q.conns| && !(peer.Connected? && d == c) ==> d < |p.conns|)
            && (d < |q.conns| ==> TallyOf(q.conns[d]) == if peer.Connected? && d == c then NOTHING else TallyOf(p.conns[d]))
  {
  }

  lemma StepTally(env: Env, s: System, step: Step, c: nat)
    requires CanStep(env, s, step) && c < |Do(env, s, step).p.conns|
    ensures !TakesRecord(s, step, c) ==> c < |s.p.conns|
    ensures TallyOf(Do(env, s, step).p.conns[c]) ==
            if TakesRecord(s, step, c) then NOTHING
            else if HandlesRecord(s, step, c) then Packet(TallyOf(s.p.conns[c]), s.worker.handler == ClientToServer, step.t, env.maxRequests)
            else TallyOf(s.p.conns[c])
  {
    hide Accept, Forward, Close, Packet, Find;
    match step {
      case TakeIn(peer) => AcceptTally(s.p, s.connections + 1, s.now, peer, c);
      case Finish(t, closes) =>
        ForwardFrame(s.p, s.worker.c, s.worker.handler == ClientToServer, t, env.maxRequests, closes);
        ForwardTally(s.p, s.worker.c, s.worker.handler == ClientToServer, t, env.maxRequests, closes, c);
      case Evict(closes) =>
        CloseFrame(s.p, s.sweeper.holder[s.sweeper.i], closes);
        CloseTally(s.p, s.sweeper.holder[s.sweeper.i], closes, c);
      case _ =>
    }
  }

  /** In every run a record's counters and streams are those of the packets handled since its last acceptance. */
  lemma {:induction false} RunTally(env: Env, states: seq<System>, steps: seq<Step>, c: nat, n: nat)
    requires IsRun(env, states, steps) && n <= |steps| && c < |states[n].p.conns|
    ensures TallyOf(states[n].p.conns[c]) == Since(env, states, steps, c, n)
  {
    hide CanStep, Do, TakesRecord, HandlesRecord, Packet, TallyOf;
    if n > 0 {
      assert CanStep(env, states[n - 1], steps[n - 1]) && states[n] == Do(env, states[n - 1], steps[n - 1]);
      StepTally(env, states[n - 1], steps[n - 1], c);
      if !TakesRecord(states[n - 1], steps[n - 1], c) {
        RunTally(env, states, steps, c, n - 1);
      }
    }
  }

  // ---------------------------------------------------------------- live connections

  /** How many packets record `c` has read from a side since its last acceptance. */
  function Packets(states: seq<System>, steps: seq<Step>, c: nat, side: Handler, n: nat): nat
    requires |states| == |steps| + 1 && n <= |steps|
  {
    if n == 0 || TakesRecord(states[n - 1], steps[n - 1], c) then 0
    else
      Packets(states, steps, c, side, n - 1) +
      if HandlesRecord(states[n - 1], steps[n - 1], c) && states[n - 1].worker.handler == side && steps[n - 1].t.bytes != [] then 1 else 0
  }

  /** All it has read from that side since. */
  function Bytes(states: seq<System>, steps: seq<Step>, c: nat, side: Handler, n: nat): seq<nat>
    requires |states| == |steps| + 1 && n <= |steps|
  {
    if n == 0 || TakesRecord(states[n - 1], steps[n - 1], c) then []
    else
      Bytes(states, steps, c, side, n - 1) +
      if HandlesRecord(states[n - 1], steps[n - 1], c) && states[n - 1].worker.handler == side then steps[n - 1].t.bytes else []
  }

  /** The tally of a connection none of whose packets was dropped or cut short. */
  function Whole(requests: nat, responses: nat, fromClient: seq<nat>, fromServer: seq<nat>): Tally {
    Tally(requests, responses, |fromClient|, |fromServer|, fromClient, fromClient, fromServer, fromServer)
  }

  lemma StepLive(env: Env, s: System, step: Step, c: nat)
    requires CanStep(env, s, step) && WorkerHolds(s) && c < |Do(env, s, step).p.conns| && Do(env, s, step).p.conns[c].inChain && !TakesRecord(s, step, c)
    ensures c < |s.p.conns| && s.p.conns[c].inChain
    ensures HandlesRecord(s, step, c) ==>
              && step.t.bytes != [] && (s.worker.handler == ClientToServer ==> s.p.conns[c].requestCount <= env.maxRequests)
              && WriteTotal(|step.t.bytes|, step.t.writes) == |step.t.bytes|
  {
    hide Accept, Forward, Close, Find, Writes, WriteTotal;
    match step {
      case TakeIn(peer) => AcceptStays(s.p, s.connections + 1, s.now, peer, c);
      case Finish(t, closes) =>
        ForwardFrame(s.p, s.worker.c, s.worker.handler == ClientToServer, t, env.maxRequests, closes);
        ForwardEnds(s.p, s.worker.c, s.worker.handler == ClientToServer, t, env.maxRequests, closes);
        WrittenExactly(|t.bytes|, t.writes);
      case Evict(closes) => CloseFrame(s.p, s.sweeper.holder[s.sweeper.i], closes);
      case _ =>
    }
  }

  lemma AcceptStays(p: Proxy, id: int, now: int, peer: Peer, d: nat)
    requires Shaped(p.ev) && InRange(p.pool, |p.conns|)
    ensures var q, c := Accept(p, id, now, peer), if p.pool != [] then p.pool[0] else |p.conns|;
            d < |q.conns| && !(peer.Connected? && d == c) ==> d < |p.conns| && q.conns[d] == p.conns[d]
  {
  }

  lemma WholeGrows(tally: Tally, isClient: bool, t: Traffic, maxRequests: int)
    requires tally.requests >= 0 && tally.responses >= 0 && tally == Whole(tally.requests, tally.responses, tally.fromClient, tally.fromServer)
    requires t.bytes != [] && (isClient ==> tally.requests <= maxRequests) && WriteTotal(|t.bytes|, t.writes) == |t.bytes|
    ensures Packet(tally, isClient, t, maxRequests) ==
            if isClient then Whole(tally.requests + 1, tally.responses, tally.fromClient + t.bytes, tally.fromServer)
            else Whole(tally.requests, tally.responses + 1, tally.fromClient, tally.fromServer + t.bytes)
  {
    assert t.bytes[..|t.bytes|] == t.bytes;
  }

  /** In every run, a connection in the chain has counted every packet read from either side since it was
      accepted, and has written on every byte of them. */
  lemma {:induction false} LiveConnections(env: Env, states: seq<System>, steps: seq<Step>, c: nat, n: nat)
    requires IsRun(env, states, steps) && n <= |steps| && c < |states[n].p.conns| && states[n].p.conns[c].inChain
    ensures var conn := states[n].p.conns[c];
            && conn.requestCount == Packets(states, steps, c, ClientToServer, n)
            && conn.responseCount == Packets(states, steps, c, ServerToClient, n)
            && conn.fromClient == conn.toServer == Bytes(states, steps, c, ClientToServer, n)
            && conn.fromServer == conn.toClient == Bytes(states, steps, c, ServerToClient, n)
            && conn.bytesSent == |conn.toServer| && conn.bytesReceived == |conn.toClient|
  {
    hide CanStep, Do, TakesRecord, WriteTotal, Packet, WorkerHolds, Clocks;
    if n > 0 {
      var s, step := states[n - 1], steps[n - 1];
      assert CanStep(env, s, step) && states[n] == Do(env, s, step);
      StepTally(env, s, step, c);
      if !TakesRecord(s, step, c) {
        RunHolds(env, states, steps, n - 1);
        StepLive(env, s, step, c);
        LiveConnections(env, states, steps, c, n - 1);
        if HandlesRecord(s, step, c) {
          WholeGrows(TallyOf(s.p.conns[c]), s.worker.handler == ClientToServer, step.t, env.maxRequests);
          NotListener(s);
        }
      }
    }
  }

  lemma NotListener(s: System)
    requires WorkerHolds(s) && s.worker.Busy?
    ensures s.worker.handler == ClientToServer || s.worker.handler == ServerToClient
  {
  }

  /** In every run, a handler leaves its connection in the chain exactly when it read something, the packets the
      client sent before this one do not exceed the allowance, and the write calls took every byte. */
  lemma HandlerLeavesOpen(env: Env, states: seq<System>, steps: seq<Step>, n: nat)
    requires IsRun(env, states, steps) && n < |steps| && steps[n].Finish?
    ensures var c, t := states[n].worker.c, steps[n].t;
            && states[n].worker.Busy? && c < |states[n + 1].p.conns|
            && (states[n + 1].p.conns[c].inChain <==>
                && t.bytes != []
                && (states[n].worker.handler == ClientToServer ==> Packets(states, steps, c, ClientToServer, n) <= env.maxRequests)
                && exists k :: Writes(t.writes, k, |t.bytes|))
  {
    hide Forward, Writes;
    HandlerActsOnLive(env, states, steps, n);
    var s := states[n];
    assert CanStep(env, s, steps[n]) && states[n + 1] == Do(env, s, steps[n]);
    LiveConnections(env, states, steps, s.worker.c, n);
    ForwardEnds(s.p, s.worker.c, s.worker.handler == ClientToServer, steps[n].t, env.maxRequests, steps[n].closes);
  }

  /** An acceptance puts exactly the new connection in front, with its peer's descriptors, a fresh stamp, the next
      number and nothing counted, holding plugin data when there is any to give; without a server nothing happens. */
  lemma TakenIn(env: Env, s: System, peer: Peer)
    requires Coherent(s.p, env.l, env.maxRequests) && CanStep(env, s, TakeIn(peer))
    ensures var q := Do(env, s, TakeIn(peer)).p;
            && (peer.NoServer? ==> q == s.p)
            && (peer.Connected? ==>
                  && |q.live| == |s.p.live| + 1 && q.live[1..] == s.p.live && q.entries == s.p.entries + 1 && q.live[0] < |q.conns|
                  && var conn := q.conns[q.live[0]];
                     && conn.inChain && conn.clientFd == peer.clientFd && conn.serverFd == peer.serverFd
                     && conn.recent == s.now && conn.connectionId == s.connections + 1
                     && TallyOf(conn) == NOTHING
                     && conn.clientHandle == (if Full(s.p.ev) then -2 else FirstFree(s.p.ev.slots, s.p.ev.max, 0))
                     && (conn.data.Some? <==> peer.gives && s.p.plugin.loaded.Some? && s.p.plugin.enabled)
                     && q.open == s.p.open + {peer.clientFd, peer.serverFd})
  {
    hide Coherent, Accept, Lists;
    CoherentLists(env, s.p);
    if peer.Connected? {
      var c, a, b := Accepted(s.p, s.connections + 1, s.now, peer);
    } else {
      AcceptNone(s.p, s.connections + 1, s.now);
    }
  }
}
