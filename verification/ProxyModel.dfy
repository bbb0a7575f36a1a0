/** The proxy's connections as values: what accepting, forwarding, closing and sweeping do to the live
    list, the pool, the event slots and the plugin together. */
module ProxyModel {
  import opened Sequences
  import opened Options
  import opened EventTable
  import opened PluginHost

  /** One connection record, named by its allocation number. The last four fields are history: what was
      read from and written to each side. Times are in microseconds. */
  datatype Conn = Conn(
    connectionId: int, clientFd: int, serverFd: int, clientHandle: int, serverHandle: int,
    requestCount: int, responseCount: int, bytesSent: int, bytesReceived: int,
    recent: int, inChain: bool, data: Option<nat>,
    fromClient: seq<nat>, toServer: seq<nat>, fromServer: seq<nat>, toClient: seq<nat>)

  const BLANK := Conn(0, -1, -1, -2, -2, 0, 0, 0, 0, 0, false, None, [], [], [], [])

  /** `conns` is every record ever allocated, `live` the list from `infos`, `pool` the free list; `open` is
      what the process holds open of the listener and its connections. */
  datatype Proxy = Proxy(conns: seq<Conn>, live: seq<nat>, pool: seq<nat>, entries: int, ev: Events, plugin: Plugin, open: set<int>)

  datatype Listening = Listening(fd: int, handle: nat)

  // ---------------------------------------------------------------- operations

  function IndexOf(s: seq<nat>, c: nat): (k: nat)
    ensures k <= |s| && (k < |s| ==> s[k] == c)
    ensures c in s <==> k < |s|
    ensures forall j | 0 <= j < k :: s[j] != c
  {
    if s == [] || s[0] == c then 0 else 1 + IndexOf(s[1..], c)
  }

  function Without(s: seq<nat>, c: nat): seq<nat> {
    var k := IndexOf(s, c);
    if k < |s| then s[..k] + s[k + 1..] else s
  }

  predicate InRange(s: seq<nat>, n: nat) {
    forall i | 0 <= i < |s| :: s[i] < n
  }

  predicate Named(p: Proxy) {
    Shaped(p.ev) && InRange(p.live, |p.conns|) && InRange(p.pool, |p.conns|)
  }

  function Allocate(p: Proxy): (Proxy, nat) {
    if p.pool != [] then (p.(pool := p.pool[1..]), p.pool[0]) else (p.(conns := p.conns + [BLANK]), |p.conns|)
  }

  function FreeConn(p: Proxy, c: nat): Proxy {
    p.(pool := [c] + p.pool)
  }

  function SetConn(p: Proxy, c: nat, conn: Conn): Proxy
    requires c < |p.conns|
  {
    p.(conns := p.conns[c := conn])
  }

  function Attach(p: Proxy, c: nat): Proxy
    requires c < |p.conns|
  {
    SetConn(p, c, p.conns[c].(inChain := true)).(entries := p.entries + 1, live := [c] + p.live)
  }

  function Detach(p: Proxy, c: nat): Proxy
    requires c < |p.conns|
  {
    if p.conns[c].inChain then
      SetConn(p, c, p.conns[c].(inChain := false)).(entries := p.entries - 1, live := Without(p.live, c))
    else p
  }

  /** close_event: acts only on a record that is out of the chain. */
  function CloseEvent(p: Proxy, c: nat, closes: bool): Proxy
    requires c < |p.conns| && Shaped(p.ev)
  {
    if p.conns[c].inChain then p
    else p.(ev := Removed(Removed(p.ev, p.conns[c].serverHandle), p.conns[c].clientHandle),
            plugin := Released(p.plugin, p.conns[c].data, closes),
            open := p.open - {p.conns[c].clientFd, p.conns[c].serverFd})
  }

  /** Detach, close, return to the pool: the end of a connection on either thread. */
  function Close(p: Proxy, c: nat, closes: bool): Proxy
    requires c < |p.conns| && Shaped(p.ev)
  {
    FreeConn(CloseEvent(Detach(p, c), c, closes), c)
  }

  /** The record of a new connection, before it is attached. */
  function NewConn(id: int, clientFd: int, serverFd: int, clientHandle: int, serverHandle: int, now: int, data: Option<nat>): Conn {
    Conn(id, clientFd, serverFd, clientHandle, serverHandle, 0, 0, 0, 0, now, false, data, [], [], [], [])
  }

  /** The kernel's answers to a connection attempt: the accepted descriptor and the one to the server. */
  datatype Peer = NoServer | Connected(clientFd: int, serverFd: int, gives: bool)

  function Accept(p: Proxy, id: int, now: int, peer: Peer): Proxy
    requires Shaped(p.ev) && InRange(p.pool, |p.conns|)
  {
    match peer
    case NoServer => p
    case Connected(cfd, sfd, gives) =>
      var (q, c) := Allocate(p);
      var (plugin, data) := Allocated(q.plugin, gives);
      var (ev1, ch) := Added(q.ev, Slot(cfd, ClientToServer, Some(c)), true);
      var (ev2, sh) := Added(ev1, Slot(sfd, ServerToClient, Some(c)), true);
      var conn := NewConn(id, cfd, sfd, ch, sh, now, data);
      Attach(SetConn(q.(ev := ev2, plugin := plugin, open := q.open + {cfd, sfd}), c, conn), c)
  }

  function Stamp(p: Proxy, c: nat, now: int): Proxy
    requires c < |p.conns|
  {
    SetConn(p, c, p.conns[c].(recent := now))
  }

  /** How much of `left` bytes successive `write` calls take; an answer of 0 or less, or none, ends it. */
  function WriteTotal(left: nat, writes: seq<int>): (total: nat)
    ensures total <= left
  {
    if left == 0 || writes == [] || writes[0] <= 0 || writes[0] > left then 0
    else writes[0] + WriteTotal(left - writes[0], writes[1..])
  }

  /** What the kernel answers while a packet is forwarded, and whether the plugin crashes on it. */
  datatype Traffic = Traffic(bytes: seq<nat>, writes: seq<int>, crashes: bool)

  /** do_proxying after its time stamp: read, analyze, write, count, and close when anything failed. */
  function Forward(p: Proxy, c: nat, fromClient: bool, t: Traffic, maxRequests: int, closes: bool): Proxy
    requires c < |p.conns| && Shaped(p.ev)
  {
    var conn := p.conns[c];
    if t.bytes == [] then Close(p, c, closes)
    else
      var q := p.(plugin := Analyzed(p.plugin, conn.data, t.crashes));
      if fromClient && conn.requestCount > maxRequests then
        Close(SetConn(q, c, conn.(fromClient := conn.fromClient + t.bytes)), c, closes)
      else
        var total := WriteTotal(|t.bytes|, t.writes);
        var q' := SetConn(q, c, Carried(conn, fromClient, t.bytes, total));
        if total < |t.bytes| then Close(q', c, closes) else q'
  }

  function Carried(conn: Conn, fromClient: bool, bytes: seq<nat>, total: nat): Conn
    requires total <= |bytes|
  {
    if fromClient then
      conn.(fromClient := conn.fromClient + bytes, toServer := conn.toServer + bytes[..total],
            bytesSent := conn.bytesSent + total, requestCount := conn.requestCount + 1)
    else
      conn.(fromServer := conn.fromServer + bytes, toClient := conn.toClient + bytes[..total],
            bytesReceived := conn.bytesReceived + total, responseCount := conn.responseCount + 1)
  }

  /** clean_idle_connections run without interruption over a snapshot. */
  function SweepAll(p: Proxy, holder: seq<nat>, tv: int, timeout: int, closes: bool): (q: Proxy)
    requires Shaped(p.ev) && InRange(holder, |p.conns|)
    ensures Shaped(q.ev) && |q.conns| == |p.conns|
    decreases |holder|
  {
    if holder == [] then p
    else
      var q := if tv - p.conns[holder[0]].recent > timeout then Close(p, holder[0], closes) else p;
      SweepAll(q, holder[1..], tv, timeout, closes)
  }

  // ---------------------------------------------------------------- the invariant

  /** The live list and the pool split all records between them; the flag tells which. */
  ghost predicate Lists(p: Proxy) {
    && Named(p) && Distinct(p.live) && Distinct(p.pool)
    && p.entries == |p.live|
    && |p.live| + |p.pool| == |p.conns|
    && (forall c | 0 <= c < |p.conns| :: p.conns[c].inChain <==> c in p.live)
    && (forall c | 0 <= c < |p.conns| :: p.conns[c].inChain <==> c !in p.pool)
  }

  /** A handle is refused (-2) or names a live slot with exactly this content. */
  ghost predicate Holds(e: Events, handle: int, s: Slot)
    requires Shaped(e)
  {
    handle == -2 || (Live(e, handle) && e.slots[handle] == s)
  }

  ghost predicate OwnsSlots(p: Proxy, c: nat)
    requires c < |p.conns| && Shaped(p.ev)
  {
    var conn := p.conns[c];
    && Holds(p.ev, conn.clientHandle, Slot(conn.clientFd, ClientToServer, Some(c)))
    && Holds(p.ev, conn.serverHandle, Slot(conn.serverFd, ServerToClient, Some(c)))
  }

  /** A live slot is the listener's, or one of the two of a live connection. */
  ghost predicate OwnedSlot(p: Proxy, l: Listening, i: nat)
    requires Shaped(p.ev) && i < MAX_EVENTS
  {
    var s := p.ev.slots[i];
    i == l.handle ||
    (s.arg.Some? && s.arg.value < |p.conns| && p.conns[s.arg.value].inChain &&
     match s.handler
     case Listener => false
     case ClientToServer => p.conns[s.arg.value].clientHandle == i
     case ServerToClient => p.conns[s.arg.value].serverHandle == i)
  }

  /** Open descriptors: no two of the listener's and the live connections' are the same. */
  ghost predicate Descriptors(p: Proxy, l: Listening) {
    && l.fd >= 0
    && (forall c | 0 <= c < |p.conns| && p.conns[c].inChain ::
          var conn := p.conns[c];
          conn.clientFd >= 0 && conn.serverFd >= 0 && conn.clientFd != conn.serverFd && conn.clientFd != l.fd && conn.serverFd != l.fd)
    && (forall c, d | 0 <= c < |p.conns| && 0 <= d < |p.conns| && c != d && p.conns[c].inChain && p.conns[d].inChain ::
          var a, b := p.conns[c], p.conns[d];
          a.clientFd != b.clientFd && a.clientFd != b.serverFd && a.serverFd != b.clientFd && a.serverFd != b.serverFd)
  }

  /** Live connection `c` holds descriptor `fd`. */
  ghost predicate HeldBy(p: Proxy, c: int, fd: int) {
    0 <= c < |p.conns| && p.conns[c].inChain && (p.conns[c].clientFd == fd || p.conns[c].serverFd == fd)
  }

  /** Nothing is open but the listener and what a live connection holds, and all of that is. */
  ghost predicate Opened(p: Proxy, l: Listening) {
    forall fd: int :: fd in p.open <==> fd == l.fd || exists c :: HeldBy(p, c, fd)
  }

  function HandlesOf(conn: Conn): nat {
    (if conn.clientHandle >= 0 then 1 else 0) + if conn.serverHandle >= 0 then 1 else 0
  }

  function Handles(conns: seq<Conn>, live: seq<nat>): (n: nat)
    requires InRange(live, |conns|)
  {
    if live == [] then 0 else Handles(conns, live[1..]) + HandlesOf(conns[live[0]])
  }

  function DataOf(conns: seq<Conn>, live: seq<nat>): (d: seq<Option<nat>>)
    requires InRange(live, |conns|)
    ensures |d| == |live| && forall i | 0 <= i < |live| :: d[i] == conns[live[i]].data
  {
    if live == [] then [] else [conns[live[0]].data] + DataOf(conns, live[1..])
  }

  ghost predicate Slots(p: Proxy, l: Listening)
    requires Named(p)
  {
    && WellFormed(p.ev)
    && Live(p.ev, l.handle) && p.ev.slots[l.handle] == Slot(l.fd, Listener, None)
    && Descriptors(p, l)
    && (forall c | 0 <= c < |p.conns| && p.conns[c].inChain :: OwnsSlots(p, c))
    && (forall i | 0 <= i < p.ev.max && Live(p.ev, i) :: OwnedSlot(p, l, i))
    && p.ev.num == 1 + Handles(p.conns, p.live)
  }

  /** What was written is what was read, up to a failure that ends the connection. */
  ghost predicate Streams(conn: Conn, maxRequests: int) {
    && conn.toServer <= conn.fromClient && conn.toClient <= conn.fromServer
    && conn.bytesSent == |conn.toServer| && conn.bytesReceived == |conn.toClient|
    && (conn.inChain ==> conn.toServer == conn.fromClient && conn.toClient == conn.fromServer)
    && conn.requestCount <= if maxRequests < 0 then 0 else maxRequests + 1
  }

  /** Everything that holds between steps. */
  ghost predicate Coherent(p: Proxy, l: Listening, maxRequests: int) {
    && Lists(p)
    && Slots(p, l)
    && Opened(p, l)
    && Keeps(p.plugin, DataOf(p.conns, p.live))
    && (forall c | 0 <= c < |p.conns| :: Streams(p.conns[c], maxRequests))
  }
}
