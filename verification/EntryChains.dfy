/** Null-terminated chains of access entries, and what one chain of the table must satisfy. */
module EntryChains {
  import opened AccessRing
  import opened RateTrace

  /** The node after position `i`, null at the end. */
  ghost function After(s: seq<IpAccessEntry>, i: int): IpAccessEntry? {
    if 0 <= i + 1 < |s| then s[i + 1] else null
  }

  lemma AfterAt(s: seq<IpAccessEntry>, i: nat)
    requires i <= |s|
    ensures After(s, i - 1) == if i < |s| then s[i] else null
  {
  }

  /** `s` is exactly the null-terminated chain that starts at `head`. */
  ghost predicate Chain(head: IpAccessEntry?, s: seq<IpAccessEntry>)
    reads s`next
  {
    && head == After(s, -1)
    && forall i | 0 <= i < |s| :: s[i].next == After(s, i)
  }

  lemma ChainLinks(head: IpAccessEntry?, s: seq<IpAccessEntry>)
    requires Chain(head, s)
    ensures head == After(s, -1) && forall i | 0 <= i < |s| :: s[i].next == After(s, i)
  {
  }

  lemma ChainMade(head: IpAccessEntry?, s: seq<IpAccessEntry>)
    requires head == After(s, -1) && forall i | 0 <= i < |s| :: s[i].next == After(s, i)
    ensures Chain(head, s)
  {
  }

  lemma ChainTail(head: IpAccessEntry?, s: seq<IpAccessEntry>)
    requires Chain(head, s) && s != []
    ensures head == s[0] && Chain(s[0].next, s[1..])
  {
    assert s[0].next == After(s, 0);
    forall i | 0 <= i < |s[1..]| ensures s[1..][i].next == After(s[1..], i) {
      assert s[i + 1].next == After(s, i + 1);
    }
  }

  lemma ChainPush(e: IpAccessEntry, s: seq<IpAccessEntry>)
    requires Chain(e.next, s)
    ensures Chain(e, [e] + s)
  {
    forall i | 0 <= i < |s| + 1 ensures ([e] + s)[i].next == After([e] + s, i) {
      if i > 0 {
        assert s[i - 1].next == After(s, i - 1);
      }
    }
  }

  /** The chain of an address. Stated by repeated subtraction, which is `%` (BucketIsMod), to keep the
      remainder out of the table's invariant. */
  function Bucket(ip: nat, n: nat): (k: nat)
    requires n > 0
    ensures k < n
  {
    if ip < n then ip else Bucket(ip - n, n)
  }

  lemma {:induction false} BucketQuotient(ip: nat, n: nat) returns (q: nat)
    requires n > 0
    ensures ip == q * n + Bucket(ip, n)
  {
    if ip < n {
      q := 0;
    } else {
      q := BucketQuotient(ip - n, n);
      q := q + 1;
    }
  }

  lemma {:induction false} MulAtLeast(k: nat, n: nat)
    requires k >= 1
    ensures k * n >= n
  {
    if k > 1 { MulAtLeast(k - 1, n); }
  }

  lemma RemainderIsUnique(q: int, r: int, d: int, m: int, n: int)
    requires q * n + r == d * n + m && 0 <= r < n && 0 <= m < n
    ensures r == m
  {
    if q > d {
      MulAtLeast(q - d, n);
    } else if q < d {
      MulAtLeast(d - q, n);
    }
  }

  lemma BucketIsMod(ip: nat, n: nat)
    requires n > 0
    ensures Bucket(ip, n) == ip % n
  {
    var q := BucketQuotient(ip, n);
    RemainderIsUnique(q, Bucket(ip, n), ip / n, ip % n, n);
  }

  ghost function CellsOf(entries: set<IpAccessEntry>): set<array<Cell>> {
    set e | e in entries :: e.accessCount
  }

  ghost function ElementCells(s: seq<IpAccessEntry>): set<array<Cell>> {
    set e | e in s :: e.accessCount
  }

  /** Entries own their rings: different entries, different cells. */
  ghost predicate Owned(entries: set<IpAccessEntry>) {
    && (forall e | e in entries :: e.Shaped())
    && (forall e, f | e in entries && f in entries && e != f :: e.accessCount != f.accessCount)
  }

  ghost predicate Holds(s: seq<IpAccessEntry>, ip: nat)
    reads s`ipaddr
  {
    exists e :: e in s && e.ipaddr == ip
  }

  /** Chain `k` of `n` holds only addresses of its own bucket, each once. */
  ghost predicate InBucket(s: seq<IpAccessEntry>, k: nat, n: nat)
    requires n > 0
    reads s`ipaddr
  {
    && (forall e | e in s :: Bucket(e.ipaddr, n) == k)
    && (forall i, j | 0 <= i < j < |s| :: s[i].ipaddr != s[j].ipaddr)
  }

  /** The objects carry the modelled rings. */
  ghost predicate Ringed(s: seq<IpAccessEntry>, model: Table)
    reads s`ipaddr, s`counter, ElementCells(s)
  {
    forall e | e in s :: e.ipaddr in model && model[e.ipaddr] == e.AsRing()
  }

  /** A record for a new address fits in front of its chain. */
  lemma BucketPush(e: IpAccessEntry, s: seq<IpAccessEntry>, k: nat, n: nat, model: Table)
    requires n > 0 && InBucket(s, k, n) && Ringed(s, model) && Flagged(s, false)
    requires Bucket(e.ipaddr, n) == k && e.ipaddr !in model && !e.pooled
    ensures InBucket([e] + s, k, n) && Ringed([e] + s, model[e.ipaddr := e.AsRing()]) && Flagged([e] + s, false)
  {
    forall i, j | 0 <= i < j < |[e] + s| ensures ([e] + s)[i].ipaddr != ([e] + s)[j].ipaddr {
      assert s[j - 1] in s;
    }
  }

  /** Only the model's records of the chain's own bucket matter to it. */
  lemma RingedModel(s: seq<IpAccessEntry>, k: nat, n: nat, was: Table, model: Table)
    requires n > 0 && InBucket(s, k, n) && Ringed(s, was)
    requires forall ip | ip in was && Bucket(ip, n) == k :: ip in model && model[ip] == was[ip]
    ensures Ringed(s, model)
  {
  }

  ghost predicate Flagged(s: seq<IpAccessEntry>, pooled: bool)
    reads s`pooled
  {
    forall e | e in s :: e.pooled == pooled
  }
}
