/** Every operation on connections keeps the lists, the event slots, the plugin count and the streams
    coherent with each other. */
module ProxyInvariant {
  import opened Sequences
  import opened Options
  import opened EventTable
  import opened PluginHost
  import opened ProxyModel

  lemma WithoutFacts(s: seq<nat>, c: nat)
    requires Distinct(s) && c in s
    ensures var w := Without(s, c);
            |w| == |s| - 1 && Distinct(w) && forall d :: d in w <==> d in s && d != c
  {
    var k := IndexOf(s, c);
    assert s == s[..k] + [c] + s[k + 1..];
  }

  lemma {:induction false} HandlesWithout(conns: seq<Conn>, live: seq<nat>, k: nat)
    requires InRange(live, |conns|) && k < |live|
    ensures InRange(live[..k] + live[k + 1..], |conns|)
    ensures Handles(conns, live[..k] + live[k + 1..]) == Handles(conns, live) - HandlesOf(conns[live[k]])
    ensures DataOf(conns, live[..k] + live[k + 1..]) == DataOf(conns, live)[..k] + DataOf(conns, live)[k + 1..]
  {
    HandlesDrop(conns, live, k);
    hide Handles;
    var w, d := live[..k] + live[k + 1..], DataOf(conns, live);
    assert |DataOf(conns, w)| == |d[..k] + d[k + 1..]|;
    forall i | 0 <= i < |w| ensures DataOf(conns, w)[i] == (d[..k] + d[k + 1..])[i] {
      assert w[i] == if i < k then live[i] else live[i + 1];
    }
  }

  lemma {:induction false} HandlesDrop(conns: seq<Conn>, live: seq<nat>, k: nat)
    requires InRange(live, |conns|) && k < |live|
    ensures InRange(live[..k] + live[k + 1..], |conns|)
    ensures Handles(conns, live[..k] + live[k + 1..]) == Handles(conns, live) - HandlesOf(conns[live[k]])
  {
    var w := live[..k] + live[k + 1..];
    if k > 0 {
      assert w[0] == live[0] && w[1..] == live[1..][..k - 1] + live[1..][k - 1 + 1..];
      HandlesDrop(conns, live[1..], k - 1);
    } else {
      assert w == live[1..];
    }
  }

  /** Handles and data depend only on the records listed. */
  lemma {:induction false} ListedOnly(conns: seq<Conn>, conns': seq<Conn>, live: seq<nat>)
    requires InRange(live, |conns|) && InRange(live, |conns'|)
    requires forall i | 0 <= i < |live| ::
               HandlesOf(conns[live[i]]) == HandlesOf(conns'[live[i]]) && conns[live[i]].data == conns'[live[i]].data
    ensures Handles(conns, live) == Handles(conns', live) && DataOf(conns, live) == DataOf(conns', live)
  {
    if live != [] { ListedOnly(conns, conns', live[1..]); }
  }

  /** Removing the two handles of a connection, either of which may have been refused. */
  lemma RemoveBoth(e: Events, a: int, b: int)
    requires WellFormed(e) && (a == -2 || Live(e, a)) && (b == -2 || Live(e, b)) && (a == b ==> a == -2)
    ensures var e' := Removed(Removed(e, a), b);
            && WellFormed(e')
            && e'.num == e.num - (if a >= 0 then 1 else 0) - (if b >= 0 then 1 else 0)
            && (forall j: int :: Live(e', j) <==> Live(e, j) && j != a && j != b)
            && (forall j | 0 <= j < MAX_EVENTS && j != a && j != b :: e'.slots[j] == e.slots[j])
  {
    if a != -2 { RemoveKeeps(e, a); }
    if b != -2 { RemoveKeeps(Removed(e, a), b); }
  }

  lemma ListsClosed(p: Proxy, c: nat, closes: bool)
    requires Lists(p) && c < |p.conns| && p.conns[c].inChain
    ensures Lists(Close(p, c, closes))
  {
    WithoutFacts(p.live, c);
  }

  /** The parts of a close, one by one. */
  lemma Closed(p: Proxy, c: nat, closes: bool)
    requires Shaped(p.ev) && c < |p.conns| && p.conns[c].inChain
    ensures var q, conn := Close(p, c, closes), p.conns[c];
            && q.conns == p.conns[c := conn.(inChain := false)] && q.live == Without(p.live, c) && q.pool == [c] + p.pool
            && q.entries == p.entries - 1 && q.ev == Removed(Removed(p.ev, conn.serverHandle), conn.clientHandle)
            && q.plugin == Released(p.plugin, conn.data, closes) && q.open == p.open - {conn.clientFd, conn.serverFd}
  {
  }

  /** A live slot belongs to one connection only, so the others keep theirs. */
  lemma OthersKeepSlots(p: Proxy, l: Listening, q: Proxy, c: nat)
    requires Named(p) && Slots(p, l) && Shaped(q.ev) && c < |p.conns| == |q.conns| && p.conns[c].inChain
    requires q.conns == p.conns[c := p.conns[c].(inChain := false)]
    requires var conn := p.conns[c];
             && (forall j: int :: Live(q.ev, j) <==> Live(p.ev, j) && j != conn.serverHandle && j != conn.clientHandle)
             && forall j | 0 <= j < MAX_EVENTS && j != conn.serverHandle && j != conn.clientHandle :: q.ev.slots[j] == p.ev.slots[j]
    ensures forall d | 0 <= d < |q.conns| && q.conns[d].inChain :: OwnsSlots(q, d)
    ensures forall i | 0 <= i < q.ev.max && Live(q.ev, i) :: OwnedSlot(q, l, i)
    ensures Live(q.ev, l.handle) && q.ev.slots[l.handle] == Slot(l.fd, Listener, None)
  {
    hide WellFormed, Descriptors, Handles;
    assert OwnsSlots(p, c);
    forall d | 0 <= d < |q.conns| && q.conns[d].inChain ensures OwnsSlots(q, d) {
      assert OwnsSlots(p, d);
    }
    forall i | 0 <= i < q.ev.max && Live(q.ev, i) ensures OwnedSlot(q, l, i) {
      assert Live(p.ev, i) && OwnedSlot(p, l, i);
    }
  }

  lemma SlotsClosed(p: Proxy, l: Listening, c: nat, closes: bool)
    requires Lists(p) && Slots(p, l) && c < |p.conns| && p.conns[c].inChain
    ensures var q := Close(p, c, closes); Named(q) && Slots(q, l)
  {
    hide Close, Removed, Released, WellFormed, Without, OwnsSlots, OwnedSlot, Handles, DataOf;
    var q, conn := Close(p, c, closes), p.conns[c];
    Closed(p, c, closes);
    ListsClosed(p, c, closes);
    TwoHandles(p, l, c);
    RemoveBoth(p.ev, conn.serverHandle, conn.clientHandle);
    OthersKeepSlots(p, l, q, c);
    CountsClosed(p, c, closes);
  }

  lemma TwoHandles(p: Proxy, l: Listening, c: nat)
    requires Named(p) && Slots(p, l) && c < |p.conns| && p.conns[c].inChain
    ensures var a, b := p.conns[c].serverHandle, p.conns[c].clientHandle;
            (a == -2 || Live(p.ev, a)) && (b == -2 || Live(p.ev, b)) && (a == b ==> a == -2)
  {
    hide WellFormed, Descriptors, Handles, OwnedSlot;
    assert OwnsSlots(p, c);
  }

  /** What closing takes from the two sums over the live list. */
  lemma CountsClosed(p: Proxy, c: nat, closes: bool)
    requires Lists(p) && c < |p.conns| && p.conns[c].inChain
    ensures var q, k := Close(p, c, closes), IndexOf(p.live, c);
            && k < |p.live| && Named(q)
            && Handles(q.conns, q.live) == Handles(p.conns, p.live) - HandlesOf(p.conns[c])
            && DataOf(q.conns, q.live) == DataOf(p.conns, p.live)[..k] + DataOf(p.conns, p.live)[k + 1..]
            && DataOf(p.conns, p.live)[k] == p.conns[c].data
  {
    hide Close, Removed, Released, Handles;
    var q := Close(p, c, closes);
    Closed(p, c, closes);
    ListsClosed(p, c, closes);
    HandlesWithout(p.conns, p.live, IndexOf(p.live, c));
    ListedOnly(p.conns, q.conns, q.live);
  }

  /** A close gives up the two descriptors of its connection and no other. */
  lemma OpenedClosed(p: Proxy, l: Listening, c: nat, closes: bool)
    requires Shaped(p.ev) && Descriptors(p, l) && Opened(p, l) && c < |p.conns| && p.conns[c].inChain
    ensures Opened(Close(p, c, closes), l) && p.conns[c].clientFd in p.open && p.conns[c].serverFd in p.open
  {
    hide Close;
    var q := Close(p, c, closes);
    Closed(p, c, closes);
    assert HeldBy(p, c, p.conns[c].clientFd) && HeldBy(p, c, p.conns[c].serverFd);
    forall fd: int ensures fd in q.open <==> fd == l.fd || exists d :: HeldBy(q, d, fd) {
      if fd in q.open && fd != l.fd {
        var d :| HeldBy(p, d, fd);
        assert HeldBy(q, d, fd);
      } else if d :| HeldBy(q, d, fd) {
        assert HeldBy(p, d, fd);
      }
    }
  }

  lemma CloseKeeps(p: Proxy, l: Listening, maxRequests: int, c: nat, closes: bool)
    requires Lists(p) && Slots(p, l) && Opened(p, l) && Keeps(p.plugin, DataOf(p.conns, p.live))
    requires c < |p.conns| && p.conns[c].inChain
    requires forall d | 0 <= d < |p.conns| && d != c :: Streams(p.conns[d], maxRequests)
    requires Streams(p.conns[c].(inChain := false), maxRequests)
    ensures Coherent(Close(p, c, closes), l, maxRequests)
  {
    hide Close, Removed, Released, Without, Handles, DataOf, Keeps, Slots, Streams, Opened, Descriptors;
    SlotsDescriptors(p, l);
    Closed(p, c, closes);
    OpenedClosed(p, l, c, closes);
    ListsClosed(p, c, closes);
    SlotsClosed(p, l, c, closes);
    CountsClosed(p, c, closes);
    ReleaseKeeps(p.plugin, DataOf(p.conns, p.live), IndexOf(p.live, c), closes);
  }

  // ---------------------------------------------------------------- accepting

  /** A descriptor that is not open on any live connection nor the listener. */
  ghost predicate FreshFd(p: Proxy, l: Listening, fd: int) {
    fd >= 0 && fd != l.fd &&
    forall c | 0 <= c < |p.conns| && p.conns[c].inChain :: p.conns[c].clientFd != fd && p.conns[c].serverFd != fd
  }

  ghost predicate FreshPeer(p: Proxy, l: Listening, peer: Peer) {
    peer.Connected? ==> FreshFd(p, l, peer.clientFd) && FreshFd(p, l, peer.serverFd) && peer.clientFd != peer.serverFd
  }

  /** What the kernel promises of new descriptors: they are not open yet. */
  ghost predicate NewPeer(p: Proxy, peer: Peer) {
    peer.Connected? ==> peer.clientFd >= 0 && peer.serverFd >= 0 && peer.clientFd != peer.serverFd
                        && peer.clientFd !in p.open && peer.serverFd !in p.open
  }

  lemma NewIsFresh(p: Proxy, l: Listening, peer: Peer)
    requires Opened(p, l)
    ensures NewPeer(p, peer) <==> FreshPeer(p, l, peer)
  {
    if peer.Connected? {
      forall fd: int | fd >= 0 ensures fd in p.open <==> !FreshFd(p, l, fd) {
        if fd != l.fd && fd in p.open {
          var c :| HeldBy(p, c, fd);
        } else if !FreshFd(p, l, fd) && fd != l.fd {
          var c :| 0 <= c < |p.conns| && p.conns[c].inChain && (p.conns[c].clientFd == fd || p.conns[c].serverFd == fd);
          assert HeldBy(p, c, fd);
        }
      }
    }
  }

  lemma SlotsDescriptors(p: Proxy, l: Listening)
    requires Named(p) && Slots(p, l)
    ensures Descriptors(p, l)
  {
  }

  lemma FreshNotInTable(p: Proxy, l: Listening, fd: int)
    requires Named(p) && Slots(p, l) && FreshFd(p, l, fd)
    ensures forall i | 0 <= i < p.ev.max :: p.ev.slots[i].fd != fd
  {
    hide WellFormed, Handles;
    forall i | 0 <= i < p.ev.max ensures p.ev.slots[i].fd != fd {
      if Live(p.ev, i) {
        assert OwnedSlot(p, l, i);
        var s := p.ev.slots[i];
        if i != l.handle { assert OwnsSlots(p, s.arg.value); }
      }
    }
  }

  /** Two adds: each takes a new slot or is refused by a full table, and nothing else moves. */
  lemma AddBoth(e: Events, s: Slot, t: Slot)
    requires WellFormed(e) && s.fd >= 0 && t.fd >= 0 && s.fd != t.fd
    requires forall i | 0 <= i < e.max :: e.slots[i].fd != s.fd && e.slots[i].fd != t.fd
    ensures var (e1, a) := Added(e, s, true);
            var (e2, b) := Added(e1, t, true);
            && WellFormed(e2) && Holds(e2, a, s) && Holds(e2, b, t)
            && -2 <= a < MAX_EVENTS && -2 <= b < MAX_EVENTS && a != -1 && b != -1 && (a == b ==> a == -2)
            && !Live(e, a) && !Live(e, b)
            && e2.num == e.num + (if a >= 0 then 1 else 0) + (if b >= 0 then 1 else 0)
            && (forall j: int :: Live(e2, j) <==> Live(e, j) || (j >= 0 && (j == a || j == b)))
            && (forall j | 0 <= j < MAX_EVENTS && j != a && j != b :: e2.slots[j] == e.slots[j])
            && (e.num + 2 <= MAX_EVENTS ==> a >= 0 && b >= 0)
  {
    var (e1, a) := Added(e, s, true);
    AddKeeps(e, s);
    hide Added, WellFormed;
    NotAfterAdd(e, s, t.fd);
    AddKeeps(e1, t);
  }

  lemma NotAfterAdd(e: Events, s: Slot, fd: int)
    requires WellFormed(e) && s.fd >= 0 && s.fd != fd && fd >= 0
    requires forall i | 0 <= i < e.max :: e.slots[i].fd != s.fd && e.slots[i].fd != fd
    ensures var e1 := Added(e, s, true).0; Shaped(e1) && forall i | 0 <= i < e1.max :: e1.slots[i].fd != fd
  {
    AddKeeps(e, s);
    var (e1, a) := Added(e, s, true);
    forall i | 0 <= i < e1.max ensures e1.slots[i].fd != fd {
      if i != a && Live(e1, i) { assert Live(e, i); }
    }
  }

  function NewSlots(c: nat, peer: Peer): (Slot, Slot)
    requires peer.Connected?
  {
    (Slot(peer.clientFd, ClientToServer, Some(c)), Slot(peer.serverFd, ServerToClient, Some(c)))
  }

  /** The parts of an acceptance, one by one; the record is recycled or new, and out of the chain. */
  lemma Accepted(p: Proxy, id: int, now: int, peer: Peer) returns (c: nat, a: int, b: int)
    requires Lists(p) && peer.Connected?
    ensures c == if p.pool != [] then p.pool[0] else |p.conns|
    ensures var q, (s, t), (plugin, data) := Accept(p, id, now, peer), NewSlots(c, peer), Allocated(p.plugin, peer.gives);
            var (e1, a') := Added(p.ev, s, true);
            var (e2, b') := Added(e1, t, true);
            && a == a' && b == b' && q.ev == e2 && q.plugin == plugin && q.live == [c] + p.live && q.entries == p.entries + 1
            && q.pool == (if p.pool != [] then p.pool[1..] else []) && c < |q.conns| == |p.live| + 1 + |q.pool|
            && q.conns[c] == NewConn(id, peer.clientFd, peer.serverFd, a, b, now, data).(inChain := true)
            && |p.conns| <= |q.conns| <= |p.conns| + 1 && q.open == p.open + {peer.clientFd, peer.serverFd}
            && (forall d | 0 <= d < |q.conns| && d != c :: d < |p.conns| && q.conns[d] == p.conns[d])
            && (c < |p.conns| ==> !p.conns[c].inChain)
  {
    hide Added;
    var (q, c') := Allocate(p);
    c := c';
    var (s, t) := NewSlots(c, peer);
    var (e1, a') := Added(p.ev, s, true);
    var (e2, b') := Added(e1, t, true);
    a, b := a', b';
  }

  lemma ListsAccepted(p: Proxy, id: int, now: int, peer: Peer)
    requires Lists(p)
    ensures Lists(Accept(p, id, now, peer))
  {
    hide Accept, Added, Allocated;
    if peer.Connected? {
      var q := Accept(p, id, now, peer);
      var c, a, b := Accepted(p, id, now, peer);
      forall i | 0 <= i < |p.live| ensures p.live[i] != c {
        assert p.live[i] in p.live;
      }
      assert c !in p.live;
      assert p.pool != [] ==> p.pool == [c] + q.pool;
      forall d | 0 <= d < |q.conns| ensures (q.conns[d].inChain <==> d in q.live) && (q.conns[d].inChain <==> d !in q.pool) {
        if d == c {
          assert q.live[0] == c;
        } else {
          assert d in q.live <==> d in p.live;
          assert d in q.pool <==> d in p.pool;
        }
      }
    } else {
      assert Accept(p, id, now, peer) == p by { AcceptNone(p, id, now); }
    }
  }

  lemma AcceptNone(p: Proxy, id: int, now: int)
    requires Shaped(p.ev) && InRange(p.pool, |p.conns|)
    ensures Accept(p, id, now, NoServer) == p
  {
  }

  lemma DescriptorsAccepted(p: Proxy, l: Listening, q: Proxy, c: nat, peer: Peer)
    requires Descriptors(p, l) && FreshPeer(p, l, peer) && peer.Connected? && c < |q.conns|
    requires q.conns[c].clientFd == peer.clientFd && q.conns[c].serverFd == peer.serverFd
    requires forall d | 0 <= d < |q.conns| && d != c :: d < |p.conns| && q.conns[d] == p.conns[d]
    ensures Descriptors(q, l)
  {
  }

  lemma OpenedAccepted(p: Proxy, l: Listening, q: Proxy, c: nat, peer: Peer)
    requires Opened(p, l) && peer.Connected? && c < |q.conns| && (c < |p.conns| ==> !p.conns[c].inChain)
    requires q.conns[c].inChain && q.conns[c].clientFd == peer.clientFd && q.conns[c].serverFd == peer.serverFd
    requires |p.conns| <= |q.conns| && forall d | 0 <= d < |q.conns| && d != c :: d < |p.conns| && q.conns[d] == p.conns[d]
    requires q.open == p.open + {peer.clientFd, peer.serverFd}
    ensures Opened(q, l)
  {
    assert HeldBy(q, c, peer.clientFd) && HeldBy(q, c, peer.serverFd);
    forall fd: int ensures fd in q.open <==> fd == l.fd || exists d :: HeldBy(q, d, fd) {
      if fd in p.open && fd != l.fd {
        var d :| HeldBy(p, d, fd);
        assert HeldBy(q, d, fd);
      } else if d :| HeldBy(q, d, fd) {
        if d != c { assert HeldBy(p, d, fd); }
      }
    }
  }

  lemma SlotsAccepted(p: Proxy, l: Listening, id: int, now: int, peer: Peer)
    requires Lists(p) && Slots(p, l) && peer.Connected? && FreshPeer(p, l, peer)
    ensures var q := Accept(p, id, now, peer); Named(q) && Slots(q, l)
    ensures Accept(p, id, now, peer).ev.num == p.ev.num + HandlesOf(Accept(p, id, now, peer).conns[Accept(p, id, now, peer).live[0]])
  {
    hide Accept, Added, Allocated, WellFormed, Handles, DataOf, Live;
    var q := Accept(p, id, now, peer);
    ListsAccepted(p, id, now, peer);
    var c, a, b := Accepted(p, id, now, peer);
    FreshNotInTable(p, l, peer.clientFd);
    FreshNotInTable(p, l, peer.serverFd);
    var (s, t) := NewSlots(c, peer);
    AddBoth(p.ev, s, t);
    DescriptorsAccepted(p, l, q, c, peer);
    forall d | 0 <= d < |q.conns| && q.conns[d].inChain ensures OwnsSlots(q, d) {
      if d != c {
        assert OwnsSlots(p, d);
        HoldsAfter(p.ev, q.ev, p.conns[d].clientHandle, Slot(p.conns[d].clientFd, ClientToServer, Some(d)), a, b);
        HoldsAfter(p.ev, q.ev, p.conns[d].serverHandle, Slot(p.conns[d].serverFd, ServerToClient, Some(d)), a, b);
      }
    }
    HoldsAfter(p.ev, q.ev, l.handle, Slot(l.fd, Listener, None), a, b);
    forall i | 0 <= i < q.ev.max && Live(q.ev, i) ensures OwnedSlot(q, l, i) {
      if i != a && i != b { LiveBelow(p.ev, i); assert OwnedSlot(p, l, i); }
    }
    HandlesAccepted(p, id, now, peer);
  }

  /** Slots taken from the free ones leave every held slot alone. */
  lemma HoldsAfter(e: Events, e': Events, handle: int, s: Slot, a: int, b: int)
    requires Shaped(e) && Shaped(e') && Holds(e, handle, s) && !Live(e, a) && !Live(e, b)
    requires forall j: int :: Live(e, j) ==> Live(e', j)
    requires forall j | 0 <= j < MAX_EVENTS && j != a && j != b :: e'.slots[j] == e.slots[j]
    ensures Holds(e', handle, s)
  {
  }

  lemma LiveBelow(e: Events, i: int)
    requires Shaped(e) && Live(e, i)
    ensures 0 <= i < e.max
  {
  }

  lemma HandlesAccepted(p: Proxy, id: int, now: int, peer: Peer)
    requires Lists(p) && peer.Connected?
    ensures var q := Accept(p, id, now, peer);
            && Named(q) && q.live != []
            && Handles(q.conns, q.live) == Handles(p.conns, p.live) + HandlesOf(q.conns[q.live[0]])
            && DataOf(q.conns, q.live) == [q.conns[q.live[0]].data] + DataOf(p.conns, p.live)
            && q.conns[q.live[0]].data == Allocated(p.plugin, peer.gives).1
  {
    hide Accept, Added, Allocated;
    var q := Accept(p, id, now, peer);
    ListsAccepted(p, id, now, peer);
    var c, a, b := Accepted(p, id, now, peer);
    assert q.live[1..] == p.live;
    forall i | 0 <= i < |p.live| ensures p.live[i] != c {
      assert p.live[i] in p.live;
    }
    ListedOnly(p.conns, q.conns, p.live);
  }

  lemma AcceptKeeps(p: Proxy, l: Listening, maxRequests: int, id: int, now: int, peer: Peer)
    requires Coherent(p, l, maxRequests) && FreshPeer(p, l, peer)
    ensures Coherent(Accept(p, id, now, peer), l, maxRequests)
  {
    hide Accept, Added, Allocated, Slots, Handles, DataOf, Keeps, Opened;
    if peer.Connected? {
      ListsAccepted(p, id, now, peer);
      SlotsAccepted(p, l, id, now, peer);
      HandlesAccepted(p, id, now, peer);
      AllocateKeeps(p.plugin, DataOf(p.conns, p.live), peer.gives);
      var c, a, b := Accepted(p, id, now, peer);
      OpenedAccepted(p, l, Accept(p, id, now, peer), c, peer);
    } else {
      AcceptNone(p, id, now);
    }
  }

  // ---------------------------------------------------------------- forwarding and sweeping

  /** A record may change in everything but what the other structures refer to. */
  ghost predicate SamePlace(a: Conn, b: Conn) {
    && a.clientFd == b.clientFd && a.serverFd == b.serverFd
    && a.clientHandle == b.clientHandle && a.serverHandle == b.serverHandle
    && a.inChain == b.inChain && a.data == b.data
  }

  lemma SetConnKeeps(p: Proxy, l: Listening, c: nat, conn: Conn)
    requires Lists(p) && Slots(p, l) && c < |p.conns| && SamePlace(p.conns[c], conn)
    ensures var q := SetConn(p, c, conn); Lists(q) && Slots(q, l) && (Opened(p, l) ==> Opened(q, l)) && DataOf(q.conns, q.live) == DataOf(p.conns, p.live)
  {
    hide WellFormed, Live, Handles, DataOf;
    var q := SetConn(p, c, conn);
    ListedOnly(p.conns, q.conns, p.live);
    SameHolders(p, q, l);
    hide Opened;
    forall d | 0 <= d < |q.conns| && q.conns[d].inChain ensures OwnsSlots(q, d) {
      assert OwnsSlots(p, d);
    }
    forall i | 0 <= i < q.ev.max && Live(q.ev, i) ensures OwnedSlot(q, l, i) {
      assert OwnedSlot(p, l, i);
    }
  }

  lemma SameHolders(p: Proxy, q: Proxy, l: Listening)
    requires |q.conns| == |p.conns| && q.open == p.open && forall d | 0 <= d < |p.conns| :: SamePlace(p.conns[d], q.conns[d])
    ensures Opened(p, l) ==> Opened(q, l)
  {
    forall d: int, fd: int ensures HeldBy(q, d, fd) <==> HeldBy(p, d, fd) {
    }
  }

  lemma PluginOnly(p: Proxy, l: Listening, plugin: Plugin)
    requires Lists(p) && Slots(p, l)
    ensures var q := p.(plugin := plugin); Lists(q) && Slots(q, l) && (Opened(p, l) ==> Opened(q, l))
  {
    hide WellFormed, Live, Handles, DataOf;
    var q := p.(plugin := plugin);
    SameHolders(p, q, l);
    hide Opened;
    forall d | 0 <= d < |q.conns| && q.conns[d].inChain ensures OwnsSlots(q, d) {
      assert OwnsSlots(p, d);
    }
    forall i | 0 <= i < q.ev.max && Live(q.ev, i) ensures OwnedSlot(q, l, i) {
      assert OwnedSlot(p, l, i);
    }
  }

  lemma StampKeeps(p: Proxy, l: Listening, maxRequests: int, c: nat, now: int)
    requires Coherent(p, l, maxRequests) && c < |p.conns|
    ensures Coherent(Stamp(p, c, now), l, maxRequests)
  {
    hide Slots, Keeps, DataOf, Opened;
    SetConnKeeps(p, l, c, p.conns[c].(recent := now));
  }

  lemma ForwardKeeps(p: Proxy, l: Listening, maxRequests: int, c: nat, fromClient: bool, t: Traffic, closes: bool)
    requires Coherent(p, l, maxRequests) && c < |p.conns| && p.conns[c].inChain
    ensures Coherent(Forward(p, c, fromClient, t, maxRequests, closes), l, maxRequests)
  {
    hide Slots, Keeps, DataOf, Opened, Lists, Close, WriteTotal, Analyzed;
    ForwardReady(p, c, l, maxRequests);
    var conn := p.conns[c];
    if t.bytes == [] {
      CloseKeeps(p, l, maxRequests, c, closes);
    } else {
      var q := p.(plugin := Analyzed(p.plugin, conn.data, t.crashes));
      AnalyzedKeeps(p, l, maxRequests, c, t.crashes);
      if fromClient && conn.requestCount > maxRequests {
        var seen := conn.(fromClient := conn.fromClient + t.bytes);
        SetConnKeeps(q, l, c, seen);
        CloseKeeps(SetConn(q, c, seen), l, maxRequests, c, closes);
      } else {
        var total := WriteTotal(|t.bytes|, t.writes);
        var carried := Carried(conn, fromClient, t.bytes, total);
        SetConnKeeps(q, l, c, carried);
        CarriedStreams(conn, fromClient, t.bytes, total, maxRequests);
        if total < |t.bytes| {
          CloseKeeps(SetConn(q, c, carried), l, maxRequests, c, closes);
        }
      }
    }
  }

  lemma ForwardReady(p: Proxy, c: nat, l: Listening, maxRequests: int)
    requires Coherent(p, l, maxRequests) && c < |p.conns|
    ensures Shaped(p.ev) && InRange(p.live, |p.conns|) && Streams(p.conns[c].(inChain := false), maxRequests)
  {
  }

  /** The analysis may disable the plugin but not lose track of its data. */
  lemma AnalyzedKeeps(p: Proxy, l: Listening, maxRequests: int, c: nat, crashes: bool)
    requires Coherent(p, l, maxRequests) && c < |p.conns| && p.conns[c].inChain
    ensures var q := p.(plugin := Analyzed(p.plugin, p.conns[c].data, crashes)); Coherent(q, l, maxRequests)
    ensures Asked(p.plugin, p.conns[c].data) ==> p.plugin.loaded == p.conns[c].data
  {
    hide Slots, Handles, Keeps, Opened;
    PluginOnly(p, l, Analyzed(p.plugin, p.conns[c].data, crashes));
    var i := IndexOf(p.live, c);
    CommandsKeep(p.plugin, DataOf(p.conns, p.live), CannotOpen, false, false, i, crashes);
  }

  lemma CarriedStreams(conn: Conn, fromClient: bool, bytes: seq<nat>, total: nat, maxRequests: int)
    requires Streams(conn, maxRequests) && conn.inChain && total <= |bytes|
    requires fromClient ==> conn.requestCount <= maxRequests
    ensures var next := Carried(conn, fromClient, bytes, total);
            Streams(next.(inChain := false), maxRequests) && (total == |bytes| ==> Streams(next, maxRequests))
  {
    if total == |bytes| { assert bytes[..total] == bytes; }
  }

  // ---------------------------------------------------------------- what coherence says

  /** While no handle was refused, the loop counts the listener and two events for each connection; a
      table of 1024 slots refuses none as long as there is room. */
  lemma EventCount(p: Proxy, l: Listening, maxRequests: int)
    requires Coherent(p, l, maxRequests)
    ensures p.ev.num == 1 + 2 * p.entries <==>
            forall c | 0 <= c < |p.conns| && p.conns[c].inChain :: p.conns[c].clientHandle >= 0 && p.conns[c].serverHandle >= 0
  {
    AllHandles(p.conns, p.live);
    assert forall c | 0 <= c < |p.conns| && p.conns[c].inChain :: c in p.live;
    assert forall i | 0 <= i < |p.live| :: p.live[i] in p.live;
  }

  lemma {:induction false} AllHandles(conns: seq<Conn>, live: seq<nat>)
    requires InRange(live, |conns|)
    ensures Handles(conns, live) <= 2 * |live|
    ensures Handles(conns, live) == 2 * |live| <==>
            forall i | 0 <= i < |live| :: conns[live[i]].clientHandle >= 0 && conns[live[i]].serverHandle >= 0
  {
    if live != [] {
      AllHandles(conns, live[1..]);
      assert forall i | 0 < i < |live| :: live[i] == live[1..][i - 1];
    }
  }

  /** An accept finds room, and gets both its handles, while two slots are left. */
  lemma RoomForAccept(p: Proxy, l: Listening, maxRequests: int, id: int, now: int, peer: Peer)
    requires Coherent(p, l, maxRequests) && peer.Connected? && FreshPeer(p, l, peer) && p.ev.num + 2 <= MAX_EVENTS
    ensures var q := Accept(p, id, now, peer);
            && q.live != [] && q.live[0] < |q.conns| && q.live[1..] == p.live
            && q.conns[q.live[0]].clientHandle >= 0 && q.conns[q.live[0]].serverHandle >= 0
            && q.ev.num == p.ev.num + 2
  {
    hide Accept, Added;
    var c, a, b := Accepted(p, id, now, peer);
    FreshNotInTable(p, l, peer.clientFd);
    FreshNotInTable(p, l, peer.serverFd);
    var (s, t) := NewSlots(c, peer);
    AddBoth(p.ev, s, t);
  }

  /** With no live connection everything is back: the pool holds every record, the plugin is not
      referenced, and the listener's is the only live slot. */
  lemma Drained(p: Proxy, l: Listening, maxRequests: int)
    requires Coherent(p, l, maxRequests) && p.live == []
    ensures p.entries == 0 && |p.pool| == |p.conns| && (forall c | 0 <= c < |p.conns| :: c in p.pool)
    ensures p.plugin.references == 0 && p.ev.num == 1
    ensures forall i: int :: Live(p.ev, i) <==> i == l.handle
    ensures p.open == {l.fd}
  {
    assert forall c | 0 <= c < |p.conns| :: !p.conns[c].inChain;
    assert forall fd: int :: fd in p.open <==> fd in {l.fd};
    forall i: int | Live(p.ev, i) ensures i == l.handle {
      assert OwnedSlot(p, l, i);
    }
  }

  /** All records are pooled exactly when none is live; without the listener the event table is then empty. */
  lemma DrainedExactly(p: Proxy, l: Listening, maxRequests: int)
    requires Coherent(p, l, maxRequests)
    ensures Shaped(p.ev) && (|p.pool| == |p.conns| <==> p.live == [])
    ensures p.live == [] ==> p.open == {l.fd} && p.plugin.references == 0 && Removed(p.ev, l.handle).num == 0 && Removed(p.ev, l.handle).max == 0
  {
    if p.live == [] {
      Drained(p, l, maxRequests);
      RemoveKeeps(p.ev, l.handle);
      var e := Removed(p.ev, l.handle);
      assert e.max > 0 ==> Live(e, e.max - 1);
    }
  }

  /** An uninterrupted sweep over the live list closes exactly the idle connections. */
  lemma {:induction false} SweepKeeps(p: Proxy, l: Listening, maxRequests: int, holder: seq<nat>, tv: int, timeout: int, closes: bool)
    requires Coherent(p, l, maxRequests) && Distinct(holder) && InRange(holder, |p.conns|)
    requires forall i | 0 <= i < |holder| :: p.conns[holder[i]].inChain
    ensures var q := SweepAll(p, holder, tv, timeout, closes);
            && Coherent(q, l, maxRequests)
            && forall c | 0 <= c < |p.conns| ::
                 (q.conns[c].inChain <==> p.conns[c].inChain && !(c in holder && tv - p.conns[c].recent > timeout))
                 && (q.conns[c].inChain ==> q.conns[c] == p.conns[c])
    decreases |holder|
  {
    hide Slots, Keeps, DataOf;
    if holder != [] {
      var c := holder[0];
      var q := if tv - p.conns[c].recent > timeout then Close(p, c, closes) else p;
      if tv - p.conns[c].recent > timeout {
        ForwardReady(p, c, l, maxRequests);
        CloseKeeps(p, l, maxRequests, c, closes);
        Closed(p, c, closes);
      }
      hide Coherent, Close;
      SweepKeeps(q, l, maxRequests, holder[1..], tv, timeout, closes);
      assert forall d :: d in holder <==> d == c || d in holder[1..];
    }
  }

  /** Shutdown: the final sweep, with a timeout of minus one second and no other actor, drains the proxy
      exactly when no record was stamped a second or more after the sweep's own clock reading. */
  lemma FinalSweep(p: Proxy, l: Listening, maxRequests: int, tv: int, closes: bool)
    requires Coherent(p, l, maxRequests)
    ensures var q := SweepAll(p, p.live, tv, -1000000, closes);
            && Coherent(q, l, maxRequests)
            && (q.live == [] <==> forall c | 0 <= c < |p.conns| && p.conns[c].inChain :: p.conns[c].recent < tv + 1000000)
  {
    hide Slots, Keeps, SweepAll;
    assert forall i | 0 <= i < |p.live| :: p.live[i] in p.live;
    SweepKeeps(p, l, maxRequests, p.live, tv, -1000000, closes);
    var q := SweepAll(p, p.live, tv, -1000000, closes);
    if q.live != [] {
      assert q.live[0] in q.live;
    }
  }
}
