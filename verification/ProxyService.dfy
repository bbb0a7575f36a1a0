/** The proxy service as the source runs it: records linked by pointers, the event loop's arrays and the
    plugin's counters, each operation proved to do what ProxyModel says of the values. */
module ProxyService {
  import opened Sequences
  import opened Options
  import opened EventTable
  import opened PluginHost
  import opened ProxyModel
  import opened ConnectionLists
  import ProxyInvariant

  /** The live list and the pool have no record twice and none in common; the flag tells membership. */
  ghost predicate Threaded(p: Proxy) {
    && InRange(p.live, |p.conns|) && InRange(p.pool, |p.conns|)
    && Distinct(p.live) && Distinct(p.pool) && p.entries == |p.live|
    && (forall i, j | 0 <= i < |p.live| && 0 <= j < |p.pool| :: p.live[i] != p.pool[j])
    && (forall c | 0 <= c < |p.conns| :: p.conns[c].inChain <==> c in p.live)
  }

  lemma AllocateThreaded(p: Proxy)
    requires Threaded(p)
    ensures var (q, c) := Allocate(p); Threaded(q) && c < |q.conns| && c !in q.live && c !in q.pool && !q.conns[c].inChain
  {
    var (q, c) := Allocate(p);
    if p.pool != [] {
      assert p.pool == [c] + q.pool;
      assert forall i | 0 <= i < |p.live| :: p.live[i] != p.pool[0];
    }
    assert forall i | 0 <= i < |p.live| :: p.live[i] < |p.conns|;
  }

  lemma AllocateParts(p: Proxy)
    ensures p.pool != [] ==> Allocate(p) == (p.(pool := p.pool[1..]), p.pool[0])
    ensures p.pool == [] ==> Allocate(p) == (p.(conns := p.conns + [BLANK]), |p.conns|)
  {
  }

  class Service {
    var infos: ConnectionInfo?
    var pool: ConnectionInfo?
    var numberOfEntries: int
    var numberOfAllocation: nat
    var open: set<int>  // the kernel's side: what is open of the listener and the connections
    const ev: EventLoop
    const analyzer: PacketAnalyzer
    var objs: seq<ConnectionInfo>  // the record at every address, in order of allocation
    ghost var model: Proxy

    /** Every record object carries the modelled record. */
    ghost predicate Records()
      reads `objs, `model, `numberOfAllocation, Elements(objs)
    {
      && |objs| == |model.conns| == numberOfAllocation && Numbered(objs)
      && forall i | 0 <= i < |objs| :: objs[i].AsConn() == model.conns[i]
    }

    ghost predicate Lists()
      reads `objs, `model, `infos, `pool, Elements(objs)`next, Elements(objs)`prev
    {
      && Threaded(model) && |objs| == |model.conns|
      && Doubly(infos, Nodes(objs, model.live)) && Singly(pool, Nodes(objs, model.pool))
    }

    ghost predicate Parts()
      reads `model, `numberOfEntries, `open, ev, ev.fds, ev.handlers, ev.args, analyzer
    {
      ev.Valid() && ev.AsEvents() == model.ev && analyzer.AsPlugin() == model.plugin && numberOfEntries == model.entries && open == model.open
    }

    ghost predicate Valid()
      reads this, Elements(objs), ev, ev.fds, ev.handlers, ev.args, analyzer
    {
      Records() && Lists() && Parts()
    }

    constructor ()
      ensures Valid() && model == Proxy([], [], [], 0, EMPTY, NO_PLUGIN, {}) && objs == []
      ensures fresh(ev) && fresh(ev.fds) && fresh(ev.handlers) && fresh(ev.args) && fresh(analyzer)
    {
      var e := new EventLoop();
      var a := new PacketAnalyzer();
      ev, analyzer := e, a;
      infos, pool, numberOfEntries, numberOfAllocation := null, null, 0, 0;
      objs, open := [], {};
      model := Proxy([], [], [], 0, e.AsEvents(), NO_PLUGIN, {});
    }

    lemma Ready()
      requires Valid()
      ensures Threaded(model) && Shaped(model.ev) && |objs| == |model.conns| == numberOfAllocation && Numbered(objs)
      ensures InRange(model.live, |objs|) && InRange(model.pool, |objs|)
      ensures Doubly(infos, Nodes(objs, model.live)) && Singly(pool, Nodes(objs, model.pool))
      ensures Distinct(Nodes(objs, model.live)) && Distinct(Nodes(objs, model.pool))
      ensures forall o | o in Nodes(objs, model.live) :: o !in Nodes(objs, model.pool)
    {
      NodesApart(objs, model);
    }

    /** Only one record changed, and the model with it. */
    twostate lemma OneRecord(entry: ConnectionInfo)
      requires old(Records()) && objs == old(objs) && numberOfAllocation == old(numberOfAllocation)
      requires entry.id < |objs| && entry == objs[entry.id] && model.conns == old(model).conns[entry.id := entry.AsConn()]
      requires forall o | o in objs && o != entry :: o.AsConn() == old(o.AsConn())
      ensures Records()
    {
      hide ConnectionInfo.AsConn;
    }

    /** Takes the first pooled record, or makes one. */
    method AllocateConnectionInfo() returns (entry: ConnectionInfo)
      requires Valid()
      modifies `pool, `numberOfAllocation, `objs, `model
      ensures Valid() && (model, entry.id) == Allocate(old(model)) && Loose(entry)
      ensures if old(model).pool == [] then fresh(entry) && objs == old(objs) + [entry] else objs == old(objs)
    {
      hide Numbered, Doubly, Singly, Threaded, Allocate, InRange, Distinct, Nodes;
      Ready();
      AllocateThreaded(model);
      AllocateParts(model);
      SinglyTail(pool, Nodes(objs, model.pool));
      if pool != null {
        NodesTail(objs, model.pool);
        NumberOf(objs, model.pool[0]);
        entry := pool;
        pool := pool.next;
        model := Allocate(model).0;
      } else {
        entry := new ConnectionInfo(numberOfAllocation);
        NodesGrow(objs, entry, model.live);
        NodesGrow(objs, entry, model.pool);
        NumberedGrows(objs, entry);
        numberOfAllocation := numberOfAllocation + 1;
        objs := objs + [entry];
        model := Allocate(model).0;
      }
    }

    /** A record that is in neither list. */
    ghost predicate Loose(entry: ConnectionInfo)
      reads `objs, `model
    {
      entry.id < |objs| && entry == objs[entry.id] && entry.id !in model.live && entry.id !in model.pool
    }

    method FreeConnectionInfo(entry: ConnectionInfo)
      requires Valid() && Loose(entry)
      modifies `pool, `model, entry`next
      ensures Valid() && model == FreeConn(old(model), entry.id) && objs == old(objs)
    {
      hide Numbered, Doubly, Singly, Threaded, InRange, Distinct, Nodes;
      Ready();
      NotNode(objs, model.live, entry.id);
      NotNode(objs, model.pool, entry.id);
      entry.next := pool;
      pool := entry;
      SinglyPush(entry, Nodes(objs, model.pool));
      NodesPush(objs, model.pool, entry.id);
      FreeThreaded(model, entry.id);
      model := FreeConn(model, entry.id);
    }

    /** The pointer work of attaching: `entry` becomes the head of the live list `w`. */
    method LinkFront(entry: ConnectionInfo, ghost w: seq<ConnectionInfo>)
      requires Doubly(infos, w) && Distinct(w) && entry !in w
      modifies `infos, w`prev, entry`next, entry`prev
      ensures infos == entry && Doubly(entry, [entry] + w)
    {
      DoublyLinks(infos, w);
      entry.next := infos;
      entry.prev := null;
      if infos != null {
        infos.prev := entry;
      }
      infos := entry;
      DoublyPush(entry, w);
    }

    method AttachConnectionInfoEntry(entry: ConnectionInfo)
      requires Valid() && Loose(entry)
      modifies `infos, `numberOfEntries, `model, Elements(objs)`next, Elements(objs)`prev, entry`inChain
      ensures Valid() && model == Attach(old(model), entry.id) && objs == old(objs)
    {
      hide EventLoop.AsEvents, EventLoop.Valid, PacketAnalyzer.AsPlugin;
      hide Records, Parts, Numbered, Doubly, Singly, Threaded, InRange, Distinct, Nodes, ConnectionInfo.AsConn;
      Ready();
      Flag(entry);
      NotNode(objs, model.live, entry.id);
      NotNode(objs, model.pool, entry.id);
      NodesPush(objs, model.live, entry.id);
      NumberOf(objs, entry.id);
      AttachThreaded(model, entry.id);
      ghost var spare, grown := Nodes(objs, model.pool), [entry] + Nodes(objs, model.live);
      numberOfEntries := numberOfEntries + 1;
      LinkFront(entry, Nodes(objs, model.live));
      assert Singly(pool, spare);
      entry.SetInChain(true);
      assert Singly(pool, spare) && Doubly(infos, grown);
      model := Attach(model, entry.id);
      OneRecord(entry);
      PartsFramed();
    }

    /** The pointer work of detaching the node at position `k` of the live list `w`. */
    method Unlink(entry: ConnectionInfo, ghost w: seq<ConnectionInfo>, ghost k: nat)
      requires Doubly(infos, w) && Distinct(w) && k < |w| && entry == w[k]
      modifies `infos, w`next, w`prev
      ensures Doubly(infos, w[..k] + w[k + 1..])
    {
      DoublyLinks(infos, w);
      if entry == infos {
        infos := infos.next;
        if infos != null {
          infos.prev := null;
        }
      } else {
        entry.prev.next := entry.next;
        if entry.next != null {
          entry.next.prev := entry.prev;
        }
      }
      DoublyWithout(infos, w, k);
    }

    /** The links of a detach; records, counts and the pool stay. */
    method DetachLinks(entry: ConnectionInfo, ghost k: nat)
      requires Valid() && k < |model.live| && InRange(model.live, |objs|) && entry == objs[model.live[k]]
      modifies `infos, Elements(objs)`next, Elements(objs)`prev
      ensures Records() && Parts() && InRange(model.pool, |objs|) && Singly(pool, Nodes(objs, model.pool))
      ensures Doubly(infos, Nodes(objs, model.live)[..k] + Nodes(objs, model.live)[k + 1..])
    {
      hide EventLoop.AsEvents, EventLoop.Valid, PacketAnalyzer.AsPlugin;
      hide Records, Parts, Numbered, Doubly, Singly, Threaded, InRange, Distinct, Nodes, ConnectionInfo.AsConn;
      Ready();
      NodeAt(k);
      ghost var w, spare := Nodes(objs, model.live), Nodes(objs, model.pool);
      NodesInside();
      Unlink(entry, w, k);
      assert Singly(pool, spare);
      RecordsFramed();
      PartsFramed();
    }

    lemma NodesInside()
      requires Valid()
      ensures InRange(model.live, |objs|) && InRange(model.pool, |objs|)
      ensures Elements(Nodes(objs, model.live)) <= Elements(objs) && Elements(Nodes(objs, model.pool)) <= Elements(objs)
    {
    }

    twostate lemma RecordsFramed()
      requires old(Records()) && objs == old(objs) && numberOfAllocation == old(numberOfAllocation) && model.conns == old(model).conns
      requires forall o | o in objs :: o.AsConn() == old(o.AsConn())
      ensures Records()
    {
      hide ConnectionInfo.AsConn;
    }

    twostate lemma PartsFramed()
      requires old(Parts()) && unchanged(`open) && model.open == old(model).open && model.ev == old(model).ev && model.plugin == old(model).plugin
      requires numberOfEntries - model.entries == old(numberOfEntries - model.entries)
      requires unchanged(ev) && unchanged(ev.fds) && unchanged(ev.handlers) && unchanged(ev.args) && unchanged(analyzer)
      ensures Parts()
    {
    }

    method DetachLive(entry: ConnectionInfo)
      requires Valid() && entry.id < |objs| && entry == objs[entry.id] && entry.inChain
      modifies `infos, `numberOfEntries, `model, Elements(objs)`next, Elements(objs)`prev, entry`inChain
      ensures Valid() && model == Detach(old(model), entry.id) && objs == old(objs) && Loose(entry)
    {
      hide EventLoop.AsEvents, EventLoop.Valid, PacketAnalyzer.AsPlugin;
      hide Records, Parts, Numbered, Doubly, Singly, Threaded, InRange, Distinct, Nodes, ConnectionInfo.AsConn, Detach, IndexOf;
      Ready();
      Flag(entry);
      ghost var k := IndexOf(model.live, entry.id);
      DetachThreaded(model, entry.id);
      NodesWithout(objs, model.live, k);
      DetachLinks(entry, k);
      Unflag(entry);
    }

    /** Counts and flags a record out whose links are undone. */
    method Unflag(entry: ConnectionInfo)
      requires Records() && Parts() && |objs| == |model.conns| && entry.id < |objs| && entry == objs[entry.id]
      requires var q := Detach(model, entry.id);
               && Threaded(q) && q.conns == model.conns[entry.id := model.conns[entry.id].(inChain := false)] && q.entries == model.entries - 1
               && q.ev == model.ev && q.plugin == model.plugin && q.open == model.open && entry.id !in q.live && entry.id !in q.pool
               && InRange(q.live, |objs|) && InRange(q.pool, |objs|)
               && Doubly(infos, Nodes(objs, q.live)) && Singly(pool, Nodes(objs, q.pool))
      modifies `numberOfEntries, `model, entry`inChain
      ensures Valid() && model == Detach(old(model), entry.id) && Loose(entry)
    {
      hide EventLoop.AsEvents, EventLoop.Valid, PacketAnalyzer.AsPlugin;
      hide Records, Parts, Numbered, Doubly, Singly, Threaded, InRange, Distinct, Nodes, ConnectionInfo.AsConn, Detach, IndexOf;
      Flagged(entry);
      ghost var w, spare := Nodes(objs, Detach(model, entry.id).live), Nodes(objs, Detach(model, entry.id).pool);
      assert Doubly(infos, w) && Singly(pool, spare);
      numberOfEntries := numberOfEntries - 1;
      entry.SetInChain(false);
      assert Doubly(infos, w) && Singly(pool, spare);
      model := Detach(model, entry.id);
      OneRecord(entry);
      PartsFramed();
    }

    lemma Flagged(entry: ConnectionInfo)
      requires Records() && entry.id < |objs| && entry == objs[entry.id]
      ensures entry.id < |model.conns| && entry.AsConn() == model.conns[entry.id]
      ensures forall o | o in objs && o != entry :: o.id != entry.id
    {
    }

    /** Does nothing to a record that is out of the chain. */
    method DetachConnectionInfoEntry(entry: ConnectionInfo)
      requires Valid() && entry.id < |objs| && entry == objs[entry.id]
      modifies `infos, `numberOfEntries, `model, Elements(objs)`next, Elements(objs)`prev, entry`inChain
      ensures Valid() && model == Detach(old(model), entry.id) && objs == old(objs)
      ensures old(entry.inChain) ==> Loose(entry)
    {
      hide Valid, Detach;
      Flag(entry);
      if entry.inChain {
        DetachLive(entry);
      } else {
        DetachNone(model, entry.id);
      }
    }

    /** Both event slots, both descriptors and the plugin data of a record, server side first. */
    method GiveUp(entry: ConnectionInfo, closes: bool)
      requires ev.Valid()
      modifies `open, ev, ev.fds, analyzer
      ensures ev.Valid() && ev.AsEvents() == Removed(Removed(old(ev.AsEvents()), entry.serverHandle), entry.clientHandle)
      ensures analyzer.AsPlugin() == Released(old(analyzer.AsPlugin()), entry.analyzerData, closes)
      ensures open == old(open) - {entry.clientFd, entry.serverFd}
    {
      hide Removed, Released, EventLoop.AsSlots, EventLoop.AsEvents, EventLoop.Valid, PacketAnalyzer.AsPlugin;
      var _ := ev.RemoveEvent(entry.serverHandle);
      var _ := ev.RemoveEvent(entry.clientHandle);
      open := open - {entry.clientFd};
      open := open - {entry.serverFd};
      TwoOut(old(open), entry.clientFd, entry.serverFd);
      analyzer.Release(entry.analyzerData, closes);
    }

    /** Acts only on a record that is out of the chain. */
    method CloseEvent(entry: ConnectionInfo, closes: bool)
      requires Valid() && entry.id < |objs| && entry == objs[entry.id]
      modifies `model, `open, ev, ev.fds, analyzer
      ensures Valid() && model == ProxyModel.CloseEvent(old(model), entry.id, closes) && objs == old(objs)
    {
      hide Numbered, Doubly, Singly, Threaded, InRange, Distinct, Nodes;
      hide Records, Removed, Released, EventLoop.AsSlots, EventLoop.AsEvents, EventLoop.Valid, PacketAnalyzer.AsPlugin;
      Ready();
      Flag(entry);
      ghost var w, spare := Nodes(objs, model.live), Nodes(objs, model.pool);
      if !entry.inChain {
        GiveUp(entry, closes);
        assert Doubly(infos, w) && Singly(pool, spare);
        ThreadedSame(model, ProxyModel.CloseEvent(model, entry.id, closes));
        model := ProxyModel.CloseEvent(model, entry.id, closes);
        RecordsFramed();
      }
    }

    /** Detach, close, pool: what both threads do to end a connection. */
    method Close(entry: ConnectionInfo, closes: bool)
      requires Valid() && entry.id < |objs| && entry == objs[entry.id] && entry.inChain
      modifies this, Elements(objs), ev, ev.fds, analyzer
      ensures Valid() && model == ProxyModel.Close(old(model), entry.id, closes) && objs == old(objs)
    {
      hide Valid, Detach, ProxyModel.CloseEvent, FreeConn;
      Ready();
      DetachConnectionInfoEntry(entry);
      StillLoose(entry, closes);
      CloseEvent(entry, closes);
      FreeConnectionInfo(entry);
    }

    /** The plugin and the event table learn of a new connection, client side first. */
    method Register(entry: ConnectionInfo, clientFd: int, serverFd: int, gives: bool) returns (data: Option<nat>, ch: int, sh: int)
      requires Valid()
      modifies `model, `open, ev, ev.fds, ev.handlers, ev.args, analyzer
      ensures Valid() && objs == old(objs) && Shaped(old(model).ev)
      ensures var (ev1, h1) := Added(old(model).ev, Slot(clientFd, ClientToServer, Some(entry.id)), true);
              var (ev2, h2) := Added(ev1, Slot(serverFd, ServerToClient, Some(entry.id)), true);
              && model == old(model).(ev := ev2, plugin := Allocated(old(model).plugin, gives).0, open := old(model).open + {clientFd, serverFd})
              && data == Allocated(old(model).plugin, gives).1 && (ch, sh) == (h1, h2)
    {
      hide Numbered, Doubly, Singly, Threaded, InRange, Distinct, Nodes, ConnectionInfo.AsConn;
      hide Records, Added, Allocated, EventLoop.AsSlots, EventLoop.AsEvents, EventLoop.Valid, PacketAnalyzer.AsPlugin;
      Ready();
      ghost var w, spare := Nodes(objs, model.live), Nodes(objs, model.pool);
      open := open + {clientFd, serverFd};
      data := analyzer.Allocate(gives);
      ch := ev.AddEvent(clientFd, ClientToServer, Some(entry.id), true);
      sh := ev.AddEvent(serverFd, ServerToClient, Some(entry.id), true);
      assert Doubly(infos, w) && Singly(pool, spare);
      ThreadedSame(model, model.(ev := ev.AsEvents(), plugin := analyzer.AsPlugin(), open := open));
      model := model.(ev := ev.AsEvents(), plugin := analyzer.AsPlugin(), open := open);
      RecordsFramed();
    }

    method FillRecord(entry: ConnectionInfo, id: int, clientFd: int, serverFd: int, ch: int, sh: int, now: int, data: Option<nat>)
      requires Valid() && Loose(entry)
      modifies `model, entry
      ensures Valid() && objs == old(objs) && Loose(entry) && entry.id < |old(model).conns|
      ensures model == SetConn(old(model), entry.id, NewConn(id, clientFd, serverFd, ch, sh, now, data))
    {
      hide Numbered, Doubly, Singly, Threaded, InRange, Distinct, Nodes, ConnectionInfo.AsConn;
      hide Records, Parts, EventLoop.AsEvents, EventLoop.Valid, PacketAnalyzer.AsPlugin;
      Ready();
      ghost var w, spare := Nodes(objs, model.live), Nodes(objs, model.pool);
      NumberOf(objs, entry.id);
      entry.Fill(id, clientFd, serverFd, ch, sh, now, data);
      assert Doubly(infos, w) && Singly(pool, spare);
      ThreadedLoose(model, entry.id, entry.AsConn());
      model := SetConn(model, entry.id, entry.AsConn());
      OneRecord(entry);
      PartsFramed();
    }

    /** The end of accepting_request: a reused or new record, registered and put at the head of the list. */
    method AcceptConnection(id: int, now: int, clientFd: int, serverFd: int, gives: bool)
      requires Valid()
      modifies this, Elements(objs), ev, ev.fds, ev.handlers, ev.args, analyzer
      ensures Valid() && Shaped(old(model).ev) && InRange(old(model).pool, |old(model).conns|)
      ensures model == Accept(old(model), id, now, if serverFd >= 0 then Connected(clientFd, serverFd, gives) else NoServer)
      ensures old(objs) <= objs && forall o | o in objs && o !in old(objs) :: fresh(o)
    {
      hide Valid, Allocate, Added, Allocated, Attach;
      Ready();
      if serverFd >= 0 {
        var entry := AllocateConnectionInfo();
        var data, ch, sh := Register(entry, clientFd, serverFd, gives);
        FillRecord(entry, id, clientFd, serverFd, ch, sh, now, data);
        AttachConnectionInfoEntry(entry);
      }
    }

    method Touch(entry: ConnectionInfo, now: int)
      requires Valid() && entry.id < |objs| && entry == objs[entry.id]
      modifies `model, entry
      ensures Valid() && objs == old(objs) && entry.inChain == old(entry.inChain) && entry.id < |old(model).conns|
      ensures model == SetConn(old(model), entry.id, old(model).conns[entry.id].(recent := now))
    {
      hide Numbered, Doubly, Singly, Threaded, InRange, Distinct, Nodes, ConnectionInfo.AsConn, Carried;
      hide Records, Parts, EventLoop.AsEvents, EventLoop.Valid, PacketAnalyzer.AsPlugin;
      Ready();
      Flag(entry);
      ghost var w, spare := Nodes(objs, model.live), Nodes(objs, model.pool);
      NumberOf(objs, entry.id);
      entry.SetRecent(now);
      assert Doubly(infos, w) && Singly(pool, spare);
      ThreadedFlag(model, entry.id, entry.AsConn());
      model := SetConn(model, entry.id, entry.AsConn());
      OneRecord(entry);
      PartsFramed();
      Flag(entry);
    }

    method Discard(entry: ConnectionInfo, bytes: seq<nat>)
      requires Valid() && entry.id < |objs| && entry == objs[entry.id]
      modifies `model, entry
      ensures Valid() && objs == old(objs) && entry.inChain == old(entry.inChain) && entry.id < |old(model).conns|
      ensures model == SetConn(old(model), entry.id, old(model).conns[entry.id].(fromClient := old(model).conns[entry.id].fromClient + bytes))
    {
      hide Numbered, Doubly, Singly, Threaded, InRange, Distinct, Nodes, ConnectionInfo.AsConn, Carried;
      hide Records, Parts, EventLoop.AsEvents, EventLoop.Valid, PacketAnalyzer.AsPlugin;
      Ready();
      Flag(entry);
      ghost var w, spare := Nodes(objs, model.live), Nodes(objs, model.pool);
      NumberOf(objs, entry.id);
      entry.Drop(bytes);
      assert Doubly(infos, w) && Singly(pool, spare);
      ThreadedFlag(model, entry.id, entry.AsConn());
      model := SetConn(model, entry.id, entry.AsConn());
      OneRecord(entry);
      PartsFramed();
      Flag(entry);
    }

    method Record(entry: ConnectionInfo, isClient: bool, bytes: seq<nat>, total: nat)
      requires Valid() && entry.id < |objs| && entry == objs[entry.id] && total <= |bytes|
      modifies `model, entry
      ensures Valid() && objs == old(objs) && entry.inChain == old(entry.inChain) && entry.id < |old(model).conns|
      ensures model == SetConn(old(model), entry.id, Carried(old(model).conns[entry.id], isClient, bytes, total))
    {
      hide Numbered, Doubly, Singly, Threaded, InRange, Distinct, Nodes, ConnectionInfo.AsConn, Carried;
      hide Records, Parts, EventLoop.AsEvents, EventLoop.Valid, PacketAnalyzer.AsPlugin;
      Ready();
      Flag(entry);
      ghost var w, spare := Nodes(objs, model.live), Nodes(objs, model.pool);
      NumberOf(objs, entry.id);
      CarriedFlag(model.conns[entry.id], isClient, bytes, total);
      entry.Carry(isClient, bytes, total);
      assert Doubly(infos, w) && Singly(pool, spare);
      ThreadedFlag(model, entry.id, entry.AsConn());
      model := SetConn(model, entry.id, entry.AsConn());
      OneRecord(entry);
      PartsFramed();
      Flag(entry);
    }

    method AddListener(fd: int) returns (handle: int)
      requires Valid()
      modifies `model, `open, ev, ev.fds, ev.handlers, ev.args
      ensures Valid() && objs == old(objs) && Shaped(old(model).ev)
      ensures var (e, h) := Added(old(model).ev, Slot(fd, Listener, None), true);
              model == old(model).(ev := e, open := old(model).open + {fd}) && handle == h
    {
      hide Numbered, Doubly, Singly, Threaded, InRange, Distinct, Nodes, ConnectionInfo.AsConn;
      hide Records, Added, EventLoop.AsSlots, EventLoop.AsEvents, EventLoop.Valid, PacketAnalyzer.AsPlugin;
      Ready();
      ghost var w, spare := Nodes(objs, model.live), Nodes(objs, model.pool);
      open := open + {fd};
      handle := ev.AddEvent(fd, Listener, None, true);
      assert Doubly(infos, w) && Singly(pool, spare);
      ThreadedSame(model, model.(ev := ev.AsEvents(), open := open));
      model := model.(ev := ev.AsEvents(), open := open);
      RecordsFramed();
    }

    method Operate(command: Command)
      requires Valid()
      modifies `model, analyzer
      ensures Valid() && objs == old(objs) && model == old(model).(plugin := Commanded(old(model).plugin, command))
    {
      hide Numbered, Doubly, Singly, Threaded, InRange, Distinct, Nodes, ConnectionInfo.AsConn;
      hide Records, Loaded, Unloaded, Enabled, EventLoop.AsSlots, EventLoop.AsEvents, EventLoop.Valid, PacketAnalyzer.AsPlugin;
      Ready();
      ghost var w, spare := Nodes(objs, model.live), Nodes(objs, model.pool);
      match command {
        case LoadPlugin(outcome) => var _ := analyzer.Load(outcome);
        case UnloadPlugin(closes) => var _ := analyzer.Unload(closes);
        case EnablePlugin(on) => var _ := analyzer.SetEnable(on);
      }
      assert Doubly(infos, w) && Singly(pool, spare);
      ThreadedSame(model, model.(plugin := analyzer.AsPlugin()));
      model := model.(plugin := analyzer.AsPlugin());
      RecordsFramed();
    }

    /** Asks the plugin about a packet. */
    method Analyze(entry: ConnectionInfo, crashes: bool)
      requires Valid() && entry.id < |objs| && entry == objs[entry.id]
      modifies `model, analyzer
      ensures Valid() && objs == old(objs) && entry.id < |old(model).conns|
      ensures model == old(model).(plugin := Analyzed(old(model).plugin, old(model).conns[entry.id].data, crashes))
    {
      hide Numbered, Doubly, Singly, Threaded, InRange, Distinct, Nodes;
      hide Records, Analyzed, EventLoop.AsSlots, EventLoop.AsEvents, EventLoop.Valid, PacketAnalyzer.AsPlugin;
      Ready();
      Flag(entry);
      ghost var w, spare := Nodes(objs, model.live), Nodes(objs, model.pool);
      var _ := analyzer.AnalyzePacket(entry.analyzerData, crashes);
      assert Doubly(infos, w) && Singly(pool, spare);
      ThreadedSame(model, model.(plugin := analyzer.AsPlugin()));
      model := model.(plugin := analyzer.AsPlugin());
      RecordsFramed();
    }

    /** Writes until everything is out or a write fails. */
    method WriteAll(len: nat, writes: seq<int>) returns (total: nat, failed: bool)
      ensures total == WriteTotal(len, writes) && failed == (total < len)
    {
      var left, n := len, 0;
      total, failed := 0, false;
      while left > 0
        invariant left >= 0 && left + total == len && n <= |writes|
        invariant WriteTotal(len, writes) == total + WriteTotal(left, writes[n..])
      {
        var written := if n < |writes| && writes[n] <= left then writes[n] else -1;
        if written > 0 {
          left := left - written;
          total := total + written;
          n := n + 1;
        } else {
          failed := true;
          break;
        }
      }
    }

    /** A record out of the chain is left alone; otherwise the packet is read, analyzed, written and
        counted, and the connection ends when a read or a write fails or its requests are used up. */
    method DoProxying(source: int, entry: ConnectionInfo, now: int, t: Traffic, maxRequests: int, closes: bool)
      requires Valid() && entry.id < |objs| && entry == objs[entry.id]
      modifies this, Elements(objs), ev, ev.fds, analyzer
      ensures Valid() && objs == old(objs) && entry.id < |old(model).conns| && Shaped(old(model).ev)
      ensures old(model).conns[entry.id].clientFd == old(entry.clientFd)
      ensures model == if old(entry.inChain)
                       then Forward(Stamp(old(model), entry.id, now), entry.id, old(entry.clientFd) == source, t, maxRequests, closes)
                       else old(model)
    {
      hide Valid, ProxyModel.Close, Carried, Analyzed, WriteTotal;
      Ready();
      Flag(entry);
      if entry.inChain {
        Touch(entry, now);
        Flag(entry);
        var isClient := entry.clientFd == source;
        var closing := false;
        if t.bytes != [] {
          Analyze(entry, t.crashes);
          Flag(entry);
          if isClient && entry.requestCount > maxRequests {
            closing := true;
            Discard(entry, t.bytes);
          } else {
            var total, failed := WriteAll(|t.bytes|, t.writes);
            closing := failed;
            Record(entry, isClient, t.bytes, total);
          }
        } else {
          closing := true;
        }
        if closing {
          Close(entry, closes);
        }
      }
    }

    /** What event dispatch calls: the descriptors are read from the record itself. */
    method ProxyFromClientToServer(entry: ConnectionInfo, now: int, t: Traffic, maxRequests: int, closes: bool)
      requires Valid() && entry.id < |objs| && entry == objs[entry.id]
      modifies this, Elements(objs), ev, ev.fds, analyzer
      ensures Valid() && objs == old(objs) && entry.id < |old(model).conns| && Shaped(old(model).ev)
      ensures model == if old(model).conns[entry.id].inChain
                       then Forward(Stamp(old(model), entry.id, now), entry.id, true, t, maxRequests, closes)
                       else old(model)
    {
      hide Valid, Forward, Stamp;
      Ready();
      Flag(entry);
      DoProxying(entry.clientFd, entry, now, t, maxRequests, closes);
    }

    method ProxyFromServerToClient(entry: ConnectionInfo, now: int, t: Traffic, maxRequests: int, closes: bool)
      requires Valid() && entry.id < |objs| && entry == objs[entry.id] && entry.clientFd != entry.serverFd
      modifies this, Elements(objs), ev, ev.fds, analyzer
      ensures Valid() && objs == old(objs) && entry.id < |old(model).conns| && Shaped(old(model).ev)
      ensures model == if old(model).conns[entry.id].inChain
                       then Forward(Stamp(old(model), entry.id, now), entry.id, false, t, maxRequests, closes)
                       else old(model)
    {
      hide Valid, Forward, Stamp;
      Ready();
      Flag(entry);
      DoProxying(entry.serverFd, entry, now, t, maxRequests, closes);
    }

    lemma Entries()
      requires Valid()
      ensures InRange(model.live, |objs|) && numberOfEntries == |Nodes(objs, model.live)|
      ensures Doubly(infos, Nodes(objs, model.live))
    {
    }

    /** The snapshot of the live list, head first. */
    method Snapshot() returns (holder: seq<ConnectionInfo>)
      requires Valid()
      ensures InRange(model.live, |objs|) && holder == Nodes(objs, model.live)
    {
      hide Valid, InRange, Nodes, Doubly, Node;
      Entries();
      holder := Collect(Nodes(objs, model.live));
    }

    method Collect(ghost w: seq<ConnectionInfo>) returns (holder: seq<ConnectionInfo>)
      requires Doubly(infos, w) && numberOfEntries == |w|
      ensures holder == w
    {
      holder := [];
      if numberOfEntries > 0 {
        var ptr, n := infos, 0;
        while ptr != null && n < numberOfEntries
          invariant 0 <= n <= |w| && ptr == Node(w, n) && holder == w[..n]
          decreases |w| - n
        {
          holder := holder + [ptr];
          ptr := ptr.next;
          n := n + 1;
        }
      }
    }

    /** A sweep that nothing interrupts. */
    method CleanIdleConnections(tv: int, timeout: int, closes: bool)
      requires Valid()
      modifies this, Elements(objs), ev, ev.fds, analyzer
      ensures Valid() && objs == old(objs) && Shaped(old(model).ev) && InRange(old(model).live, |old(model).conns|)
      ensures model == SweepAll(old(model), old(model).live, tv, timeout, closes)
    {
      hide Valid, Threaded, ProxyModel.Close, Doubly, Singly, Distinct, Numbered, InRange, Pending, SweepAll, Nodes;
      Ready();
      var holder := Snapshot();
      ghost var rest: seq<nat> := model.live;
      AllPending(model);
      for i := 0 to |holder|
        invariant Valid() && objs == old(objs) && Shaped(model.ev)
        invariant Pending(model, rest) && InRange(rest, |model.conns|) && |model.conns| == |objs|
        invariant InRange(rest, |objs|) && holder[i..] == Nodes(objs, rest)
        invariant SweepAll(model, rest, tv, timeout, closes) == SweepAll(old(model), old(model).live, tv, timeout, closes)
      {
        Ready();
        NodesCount(objs, rest);
        assert holder[i..][0] == holder[i] && holder[i..][1..] == holder[i + 1..];
        SweepStep(model, rest, tv, timeout, closes);
        NodesTail(objs, rest);
        NumberOf(objs, rest[0]);
        Flag(holder[i]);
        if tv - holder[i].recent > timeout {
          Close(holder[i], closes);
          Ready();
        }
        rest := rest[1..];
      }
      NodesCount(objs, rest);
      NothingLeft(model, rest, tv, timeout, closes);
    }

    /** Closes the listener. */
    method RemoveListener(handle: int, fd: int)
      requires Valid()
      modifies `model, `open, ev, ev.fds
      ensures Valid() && objs == old(objs) && Shaped(old(model).ev)
      ensures model == old(model).(ev := Removed(old(model).ev, handle), open := old(model).open - {fd}) && open == model.open
    {
      hide Numbered, Doubly, Singly, Threaded, InRange, Distinct, Nodes, ConnectionInfo.AsConn;
      hide Records, Removed, EventLoop.AsSlots, EventLoop.AsEvents, EventLoop.Valid, PacketAnalyzer.AsPlugin;
      Ready();
      ghost var w, spare := Nodes(objs, model.live), Nodes(objs, model.pool);
      var _ := ev.RemoveEvent(handle);
      open := open - {fd};
      assert Doubly(infos, w) && Singly(pool, spare);
      ThreadedSame(model, model.(ev := ev.AsEvents(), open := open));
      model := model.(ev := ev.AsEvents(), open := open);
      RecordsFramed();
    }

    /** The end of the service loop: a last sweep with a timeout of minus one second, then the listener. It
        drains everything exactly when no live record was stamped a second or more after `tv`. */
    method Shutdown(tv: int, l: Listening, closes: bool, ghost maxRequests: int)
      requires Valid() && Coherent(model, l, maxRequests)
      modifies this, Elements(objs), ev, ev.fds, analyzer
      ensures Valid()
      ensures |model.pool| == |model.conns| <==>
              forall c | 0 <= c < |old(model).conns| && old(model).conns[c].inChain :: old(model).conns[c].recent < tv + 1000000
      ensures |model.pool| == |model.conns| ==>
                model.live == [] && model.plugin.references == 0 && model.ev.num == 0 && model.ev.max == 0 && open == {}
    {
      hide Valid, Coherent, SweepAll, Removed, Lists;
      ghost var p := model;
      CleanIdleConnections(tv, -1000000, closes);
      ProxyInvariant.FinalSweep(p, l, maxRequests, tv, closes);
      ProxyInvariant.DrainedExactly(model, l, maxRequests);
      RemoveListener(l.handle, l.fd);
    }

    lemma StillLoose(entry: ConnectionInfo, closes: bool)
      requires Valid() && Loose(entry)
      ensures Shaped(model.ev) && entry.id < |model.conns|
      ensures var q := ProxyModel.CloseEvent(model, entry.id, closes); q.live == model.live && q.pool == model.pool && |q.conns| == |model.conns|
    {
    }

    lemma Flag(entry: ConnectionInfo)
      requires Valid() && entry.id < |objs| && entry == objs[entry.id]
      ensures entry.id < |model.conns| && entry.inChain == model.conns[entry.id].inChain && entry.AsConn() == model.conns[entry.id]
    {
    }

    lemma NodeAt(k: nat)
      requires Valid() && k < |model.live|
      ensures InRange(model.live, |objs|) && k < |Nodes(objs, model.live)|
      ensures model.live[k] < |objs| && Nodes(objs, model.live)[k] == objs[model.live[k]]
    {
    }
  }

  lemma TwoOut(s: set<int>, a: int, b: int)
    ensures s - {a} - {b} == s - {a, b}
  {
  }

  lemma DetachNone(p: Proxy, c: nat)
    requires c < |p.conns| && !p.conns[c].inChain
    ensures Detach(p, c) == p
  {
  }

  lemma DetachThreaded(p: Proxy, c: nat)
    requires Threaded(p) && c < |p.conns| && p.conns[c].inChain
    ensures var q, k := Detach(p, c), IndexOf(p.live, c);
            && Threaded(q) && k < |p.live| && p.live[k] == c && q.live == p.live[..k] + p.live[k + 1..] && q.pool == p.pool
            && q.conns == p.conns[c := p.conns[c].(inChain := false)] && q.entries == p.entries - 1 && q.ev == p.ev && q.plugin == p.plugin && q.open == p.open
            && c !in q.live && c !in q.pool
  {
    ProxyInvariant.WithoutFacts(p.live, c);
    ThreadedWithout(p, Detach(p, c), c);
  }

  lemma ThreadedWithout(p: Proxy, q: Proxy, c: nat)
    requires Threaded(p) && c < |p.conns| && c in p.live && q.pool == p.pool && q.entries == p.entries - 1
    requires q.conns == p.conns[c := p.conns[c].(inChain := false)]
    requires |q.live| == |p.live| - 1 && Distinct(q.live) && forall d :: d in q.live <==> d in p.live && d != c
    ensures Threaded(q) && c !in q.live && c !in q.pool
  {
    assert forall i | 0 <= i < |q.live| :: q.live[i] in q.live;
    assert forall i | 0 <= i < |p.live| :: p.live[i] in p.live;
  }

  lemma ThreadedSame(p: Proxy, q: Proxy)
    requires Threaded(p) && q.conns == p.conns && q.entries == p.entries && q.live == p.live && q.pool == p.pool
    ensures Threaded(q)
  {
  }

  lemma ThreadedLoose(p: Proxy, c: nat, conn: Conn)
    requires Threaded(p) && c < |p.conns| && c !in p.live && !conn.inChain
    ensures Threaded(SetConn(p, c, conn))
  {
  }

  lemma ThreadedFlag(p: Proxy, c: nat, conn: Conn)
    requires Threaded(p) && c < |p.conns| && conn.inChain == p.conns[c].inChain
    ensures Threaded(SetConn(p, c, conn))
  {
  }

  lemma CarriedFlag(conn: Conn, isClient: bool, bytes: seq<nat>, total: nat)
    requires total <= |bytes|
    ensures Carried(conn, isClient, bytes, total).inChain == conn.inChain
  {
  }

  /** What a snapshot still to be swept is while nothing else runs. */
  ghost predicate Pending(p: Proxy, rest: seq<nat>) {
    InRange(rest, |p.conns|) && Distinct(rest) && forall j | 0 <= j < |rest| :: rest[j] in p.live
  }

  lemma AllPending(p: Proxy)
    requires Threaded(p)
    ensures Pending(p, p.live)
  {
  }

  lemma NodesCount(objs: seq<ConnectionInfo>, s: seq<nat>)
    requires InRange(s, |objs|)
    ensures |Nodes(objs, s)| == |s|
  {
  }

  lemma NothingLeft(p: Proxy, rest: seq<nat>, tv: int, timeout: int, closes: bool)
    requires Shaped(p.ev) && InRange(rest, |p.conns|) && rest == []
    ensures SweepAll(p, rest, tv, timeout, closes) == p
  {
  }

  /** Closing the first of the connections still to be swept leaves the others in the list. */
  lemma SweepStep(p: Proxy, rest: seq<nat>, tv: int, timeout: int, closes: bool)
    requires Threaded(p) && Shaped(p.ev) && Pending(p, rest) && rest != []
    ensures InRange(rest, |p.conns|) && rest[0] < |p.conns| && p.conns[rest[0]].inChain
    ensures var q := if tv - p.conns[rest[0]].recent > timeout then ProxyModel.Close(p, rest[0], closes) else p;
            && Shaped(q.ev) && Pending(q, rest[1..]) && InRange(rest[1..], |q.conns|)
            && SweepAll(p, rest, tv, timeout, closes) == SweepAll(q, rest[1..], tv, timeout, closes)
  {
    DetachThreaded(p, rest[0]);
    ProxyInvariant.WithoutFacts(p.live, rest[0]);
    hide Without, IndexOf, Removed, Released;
  }

  lemma FreeThreaded(p: Proxy, c: nat)
    requires Threaded(p) && c < |p.conns| && c !in p.live && c !in p.pool
    ensures Threaded(FreeConn(p, c))
  {
  }

  lemma AttachThreaded(p: Proxy, c: nat)
    requires Threaded(p) && c < |p.conns| && c !in p.live && c !in p.pool
    ensures Threaded(Attach(p, c))
  {
  }
}
