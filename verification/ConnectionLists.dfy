/** Connection records as objects: the doubly linked live list and the singly linked pool. */
module ConnectionLists {
  import opened Sequences
  import opened Options
  import opened ProxyModel

  /** One connection record; `id` stands for its address, in order of allocation. */
  class ConnectionInfo {
    const id: nat
    var connectionId: int
    var clientFd: int
    var serverFd: int
    var clientHandle: int
    var serverHandle: int
    var requestCount: int
    var responseCount: int
    var bytesSent: int
    var bytesReceived: int
    var recent: int
    var inChain: bool
    var analyzerData: Option<nat>
    var prev: ConnectionInfo?
    var next: ConnectionInfo?
    ghost var fromClient: seq<nat>
    ghost var toServer: seq<nat>
    ghost var fromServer: seq<nat>
    ghost var toClient: seq<nat>

    ghost function AsConn(): Conn
      reads `connectionId, `clientFd, `serverFd, `clientHandle, `serverHandle, `requestCount, `responseCount, `bytesSent,
            `bytesReceived, `recent, `inChain, `analyzerData, `fromClient, `toServer, `fromServer, `toClient
    {
      Conn(connectionId, clientFd, serverFd, clientHandle, serverHandle, requestCount, responseCount, bytesSent, bytesReceived,
           recent, inChain, analyzerData, fromClient, toServer, fromServer, toClient)
    }

    constructor (id: nat)
      ensures this.id == id && AsConn() == BLANK
    {
      this.id := id;
      connectionId, clientFd, serverFd, clientHandle, serverHandle := 0, -1, -1, -2, -2;
      requestCount, responseCount, bytesSent, bytesReceived, recent := 0, 0, 0, 0, 0;
      inChain, analyzerData, prev, next := false, None, null, null;
      fromClient, toServer, fromServer, toClient := [], [], [], [];
    }

    method SetInChain(b: bool)
      modifies `inChain
      ensures AsConn() == old(AsConn()).(inChain := b)
    {
      inChain := b;
    }

    /** A record for a new connection: everything is set but the list links. */
    method Fill(connectionId: int, clientFd: int, serverFd: int, clientHandle: int, serverHandle: int, now: int, data: Option<nat>)
      modifies `connectionId, `clientFd, `serverFd, `clientHandle, `serverHandle, `requestCount, `responseCount, `bytesSent,
               `bytesReceived, `recent, `inChain, `analyzerData, `fromClient, `toServer, `fromServer, `toClient
      ensures AsConn() == NewConn(connectionId, clientFd, serverFd, clientHandle, serverHandle, now, data)
    {
      ClearCounters();
      this.clientFd, this.serverFd, this.connectionId := clientFd, serverFd, connectionId;
      analyzerData, recent := data, now;
      this.clientHandle, this.serverHandle := clientHandle, serverHandle;
    }

    method ClearCounters()
      modifies `requestCount, `responseCount, `bytesSent, `bytesReceived, `inChain, `fromClient, `toServer, `fromServer, `toClient
      ensures requestCount == responseCount == bytesSent == bytesReceived == 0 && !inChain
      ensures fromClient == toServer == fromServer == toClient == []
    {
      requestCount, responseCount, bytesSent, bytesReceived, inChain := 0, 0, 0, 0, false;
      fromClient, toServer, fromServer, toClient := [], [], [], [];
    }

    /** Counts a forwarded packet of which `total` bytes were written. */
    method Carry(isClient: bool, bytes: seq<nat>, total: nat)
      requires total <= |bytes|
      modifies `requestCount, `responseCount, `bytesSent, `bytesReceived, `fromClient, `toServer, `fromServer, `toClient
      ensures AsConn() == Carried(old(AsConn()), isClient, bytes, total)
    {
      if isClient {
        bytesSent := bytesSent + total;
        requestCount := requestCount + 1;
        fromClient, toServer := fromClient + bytes, toServer + bytes[..total];
      } else {
        bytesReceived := bytesReceived + total;
        responseCount := responseCount + 1;
        fromServer, toClient := fromServer + bytes, toClient + bytes[..total];
      }
    }

    /** Notes bytes that were read and then dropped. */
    method Drop(bytes: seq<nat>)
      modifies `fromClient
      ensures AsConn() == old(AsConn()).(fromClient := old(AsConn()).fromClient + bytes)
    {
      fromClient := fromClient + bytes;
    }

    method SetRecent(now: int)
      modifies `recent
      ensures AsConn() == old(AsConn()).(recent := now)
    {
      recent := now;
    }
  }

  ghost function Elements(objs: seq<ConnectionInfo>): set<ConnectionInfo> {
    set o | o in objs
  }

  /** Object `i` has number `i`. */
  ghost predicate Numbered(objs: seq<ConnectionInfo>) {
    forall i | 0 <= i < |objs| :: objs[i].id == i
  }

  /** The objects a list of numbers names, in order. */
  ghost function Nodes(objs: seq<ConnectionInfo>, s: seq<nat>): (nodes: seq<ConnectionInfo>)
    requires InRange(s, |objs|)
    ensures |nodes| == |s| && forall k | 0 <= k < |s| :: nodes[k] == objs[s[k]]
    ensures forall o | o in nodes :: o in objs
  {
    seq(|s|, k requires 0 <= k < |s| => objs[s[k]])
  }

  /** The node at position `k`, null outside the list. */
  ghost function Node(w: seq<ConnectionInfo>, k: int): ConnectionInfo? {
    if 0 <= k < |w| then w[k] else null
  }

  ghost predicate Doubly(head: ConnectionInfo?, w: seq<ConnectionInfo>)
    reads w`next, w`prev
  {
    && head == Node(w, 0)
    && (forall k | 0 <= k < |w| :: w[k].next == Node(w, k + 1))
    && (forall k | 0 <= k < |w| :: w[k].prev == Node(w, k - 1))
  }

  ghost predicate Singly(head: ConnectionInfo?, w: seq<ConnectionInfo>)
    reads w`next
  {
    && head == Node(w, 0)
    && (forall k | 0 <= k < |w| :: w[k].next == Node(w, k + 1))
  }

  lemma DoublyLinks(head: ConnectionInfo?, w: seq<ConnectionInfo>)
    requires Doubly(head, w)
    ensures head == Node(w, 0)
    ensures forall k | 0 <= k < |w| :: w[k].next == Node(w, k + 1) && w[k].prev == Node(w, k - 1)
  {
  }

  lemma NumberOf(objs: seq<ConnectionInfo>, i: nat)
    requires Numbered(objs) && i < |objs|
    ensures objs[i].id == i && forall j | 0 <= j < |objs| && j != i :: objs[j] != objs[i]
  {
  }

  lemma NumberedGrows(objs: seq<ConnectionInfo>, o: ConnectionInfo)
    requires Numbered(objs) && o.id == |objs|
    ensures Numbered(objs + [o])
  {
  }

  lemma NodesGrow(objs: seq<ConnectionInfo>, o: ConnectionInfo, s: seq<nat>)
    requires InRange(s, |objs|)
    ensures InRange(s, |objs + [o]|) && Nodes(objs + [o], s) == Nodes(objs, s)
  {
  }

  lemma NodesPush(objs: seq<ConnectionInfo>, s: seq<nat>, c: nat)
    requires InRange(s, |objs|) && c < |objs|
    ensures InRange([c] + s, |objs|) && Nodes(objs, [c] + s) == [objs[c]] + Nodes(objs, s)
  {
  }

  lemma NodesTail(objs: seq<ConnectionInfo>, s: seq<nat>)
    requires InRange(s, |objs|) && s != []
    ensures InRange(s[1..], |objs|) && Nodes(objs, s)[1..] == Nodes(objs, s[1..]) && Nodes(objs, s)[0] == objs[s[0]]
  {
  }

  lemma NodesWithout(objs: seq<ConnectionInfo>, s: seq<nat>, k: nat)
    requires InRange(s, |objs|) && k < |s|
    ensures InRange(s[..k] + s[k + 1..], |objs|)
    ensures Nodes(objs, s[..k] + s[k + 1..]) == Nodes(objs, s)[..k] + Nodes(objs, s)[k + 1..]
  {
    var w := s[..k] + s[k + 1..];
    assert forall j | 0 <= j < |w| :: w[j] == if j < k then s[j] else s[j + 1];
  }

  /** Lists without repeated or shared numbers name distinct and disjoint objects. */
  lemma NodesApart(objs: seq<ConnectionInfo>, p: Proxy)
    requires Numbered(objs) && InRange(p.live, |objs|) && InRange(p.pool, |objs|)
    requires Distinct(p.live) && Distinct(p.pool)
    requires forall i, j | 0 <= i < |p.live| && 0 <= j < |p.pool| :: p.live[i] != p.pool[j]
    ensures Distinct(Nodes(objs, p.live)) && Distinct(Nodes(objs, p.pool))
    ensures forall o | o in Nodes(objs, p.live) :: o !in Nodes(objs, p.pool)
  {
  }

  lemma NotNode(objs: seq<ConnectionInfo>, s: seq<nat>, c: nat)
    requires InRange(s, |objs|) && Numbered(objs) && c < |objs| && c !in s
    ensures objs[c] !in Nodes(objs, s)
  {
  }

  lemma NodeWithout(w: seq<ConnectionInfo>, k: nat, j: int)
    requires k < |w|
    ensures Node(w[..k] + w[k + 1..], j) == Node(w, if j < k then j else j + 1)
  {
  }

  /** Taking position `k` out: its neighbours point at each other, everybody else is unchanged. */
  lemma DoublyWithout(head: ConnectionInfo?, w: seq<ConnectionInfo>, k: nat)
    requires k < |w| && head == Node(w, if k == 0 then 1 else 0)
    requires forall j | 0 <= j < |w| && j != k :: w[j].next == Node(w, if j + 1 == k then k + 1 else j + 1)
    requires forall j | 0 <= j < |w| && j != k :: w[j].prev == Node(w, if j - 1 == k then k - 1 else j - 1)
    ensures Doubly(head, w[..k] + w[k + 1..])
  {
    hide Node;
    var rest := w[..k] + w[k + 1..];
    NodeWithout(w, k, 0);
    forall j | 0 <= j < |rest| ensures rest[j].next == Node(rest, j + 1) && rest[j].prev == Node(rest, j - 1) {
      var i := if j < k then j else j + 1;
      assert rest[j] == w[i];
      NodeWithout(w, k, j + 1);
      NodeWithout(w, k, j - 1);
    }
  }

  /** Putting an object in front of a list that does not hold it. */
  lemma DoublyPush(o: ConnectionInfo, w: seq<ConnectionInfo>)
    requires o.next == Node(w, 0) && o.prev == null
    requires forall j | 0 <= j < |w| :: w[j].next == Node(w, j + 1)
    requires forall j | 0 <= j < |w| :: w[j].prev == if j == 0 then o else Node(w, j - 1)
    ensures Doubly(o, [o] + w)
  {
    var all := [o] + w;
    forall j | 0 <= j < |all| ensures all[j].next == Node(all, j + 1) && all[j].prev == Node(all, j - 1) {
      if j > 0 {
        assert w[j - 1].next == Node(w, j) && w[j - 1].prev == if j == 1 then o else Node(w, j - 2);
      }
    }
  }

  lemma SinglyPush(o: ConnectionInfo, w: seq<ConnectionInfo>)
    requires Singly(o.next, w)
    ensures Singly(o, [o] + w)
  {
    var all := [o] + w;
    forall j | 0 <= j < |all| ensures all[j].next == Node(all, j + 1) {
      if j > 0 { assert w[j - 1].next == Node(w, j); }
    }
  }

  lemma SinglyTail(head: ConnectionInfo?, w: seq<ConnectionInfo>)
    requires Singly(head, w)
    ensures if w == [] then head == null else head == w[0] && Singly(head.next, w[1..])
  {
    if w != [] {
      forall j | 0 <= j < |w[1..]| ensures w[1..][j].next == Node(w[1..], j + 1) {
        assert w[j + 1].next == Node(w, j + 2);
      }
    }
  }
}
