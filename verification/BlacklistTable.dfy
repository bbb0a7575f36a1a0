/** The hash table of access entries: chains of recycled nodes, searched and grown by the accepting
    thread and pruned in place by the expiry thread. */
module BlacklistTable {
  import opened Sequences
  import opened AccessRing
  import opened RateTrace
  import opened EntryChains
  import opened ChainPruning

  /** The pass over bucket `k` alone. */
  ghost function SweptBucket(t: Table, slot: nat, k: nat, n: nat): Table
    requires n > 0
  {
    map ip | ip in t && (Bucket(ip, n) == k ==> Cleaned(t[ip], slot).total != 0) ::
      if Bucket(ip, n) == k then Cleaned(t[ip], slot) else t[ip]
  }

  /** The pass over the buckets below `k`. */
  ghost function SweptUpTo(t: Table, slot: nat, k: nat, n: nat): Table
    requires n > 0
  {
    map ip | ip in t && (Bucket(ip, n) < k ==> Cleaned(t[ip], slot).total != 0) ::
      if Bucket(ip, n) < k then Cleaned(t[ip], slot) else t[ip]
  }

  lemma SweptNext(t: Table, slot: nat, k: nat, n: nat)
    requires n > 0
    ensures SweptBucket(SweptUpTo(t, slot, k, n), slot, k, n) == SweptUpTo(t, slot, k + 1, n)
  {
    hide Cleaned, Bucket;
  }

  lemma SweptEnds(t: Table, slot: nat, n: nat)
    requires n > 0
    ensures SweptUpTo(t, slot, 0, n) == t && SweptUpTo(t, slot, n, n) == Swept(t, slot)
  {
    hide Cleaned;
  }

  class Blacklist {
    const heads: array<IpAccessEntry?>
    var releasePool: IpAccessEntry?
    var recentIndex: int
    ghost var chains: seq<seq<IpAccessEntry>>
    ghost var pool: seq<IpAccessEntry>
    ghost var entries: set<IpAccessEntry>  // every entry ever allocated
    ghost var model: Table
    ghost var logs: map<nat, int>          // when the record of an address was made, or last noted

    /** Records in the table carry their log times. */
    ghost predicate Logged()
      reads `chains, `logs, `entries, entries`ipaddr, entries`logTime
    {
      forall k, e | 0 <= k < |chains| && e in chains[k] :: e in entries && e.ipaddr in logs && logs[e.ipaddr] == e.logTime
    }

    lemma ReversedStart(s: seq<IpAccessEntry>)
      ensures Reversed(s[..0]) == [] && s[..|s|] == s
    {
    }

    lemma ReversedStep(s: seq<IpAccessEntry>, i: nat)
      requires i < |s|
      ensures Reversed(s[..i + 1]) == [s[i]] + Reversed(s[..i])
    {
      assert s[..i + 1][..i] == s[..i];
    }

    ghost predicate ChainOk(k: nat)
      requires heads.Length == |chains| > k
      reads `chains, `model, heads, chains[k], ElementCells(chains[k])
    {
      && Chain(heads[k], chains[k])
      && InBucket(chains[k], k, |chains|)
      && Ringed(chains[k], model)
      && Flagged(chains[k], false)
    }

    ghost predicate PoolOk()
      reads `releasePool, `pool, pool`next, pool`pooled
    {
      Chain(releasePool, pool) && Distinct(pool) && Flagged(pool, true)
    }

    /** Every entry ever allocated is in exactly one place: the pool or the chain of its address. */
    ghost predicate Conserved()
      requires |chains| > 0
      reads `entries, `chains, `pool, entries`pooled, entries`ipaddr
    {
      && (forall e | e in pool :: e in entries)
      && (forall k, e | 0 <= k < |chains| && e in chains[k] :: e in entries)
      && (forall e | e in entries && e.pooled :: e in pool)
      && (forall e | e in entries && !e.pooled :: e in chains[Bucket(e.ipaddr, |chains|)])
    }

    /** Every chain is good, made of known entries, and holds every address of the model. */
    ghost predicate TableOk()
      reads `chains, `model, `entries, heads, entries, CellsOf(entries)
    {
      && |chains| == heads.Length > 0
      && Shaped(model)
      && (forall k, e | 0 <= k < |chains| && e in chains[k] :: e in entries)
      && (forall k | 0 <= k < |chains| :: ChainOk(k))
      && (forall ip | ip in model :: Holds(chains[Bucket(ip, |chains|)], ip))
    }

    ghost predicate Valid()
      reads `chains, `pool, `releasePool, `model, `entries, heads, entries, CellsOf(entries)
    {
      (forall e | e in pool :: e in entries) && Owned(entries) && TableOk() && PoolOk() && Conserved()
    }

    /** Unchanged entries make the chain they made before. */
    twostate lemma SeqKept(k: nat)
      requires old(heads.Length == |chains| > k && ChainOk(k))
      requires forall e | e in old(chains[k]) :: unchanged(e) && unchanged(e.accessCount)
      ensures Chain(old(heads[k]), old(chains[k])) && Flagged(old(chains[k]), false)
      ensures InBucket(old(chains[k]), k, heads.Length) && Ringed(old(chains[k]), old(model))
    {
      ghost var s := old(chains[k]);
      assert old(Chain(heads[k], s)) && old(InBucket(s, k, |chains|)) && old(Ringed(s, model)) && old(Flagged(s, false));
      hide Bucket;
      forall i | 0 <= i < |s| ensures s[i].next == After(s, i) && s[i].ipaddr == old(s[i].ipaddr) && !s[i].pooled {
        assert s[i] in s;
      }
      forall e | e in s ensures Bucket(e.ipaddr, heads.Length) == k && e.ipaddr in old(model) && old(model)[e.ipaddr] == e.AsRing() {
        assert e.AsRing() == old(e.AsRing());
      }
    }

    /** A chain none of whose entries changed is still good. */
    twostate lemma ChainKept(k: nat)
      requires old(heads.Length == |chains| > k && ChainOk(k)) && |chains| == heads.Length
      requires chains[k] == old(chains[k]) && heads[k] == old(heads[k])
      requires forall e | e in chains[k] :: unchanged(e) && unchanged(e.accessCount)
      requires forall ip | ip in old(model) && Bucket(ip, |chains|) == k :: ip in model && model[ip] == old(model[ip])
      ensures ChainOk(k)
    {
      SeqKept(k);
      hide Chain, InBucket, Ringed, Flagged;
      RingedModel(chains[k], k, |chains|, old(model), model);
    }

    /** The taken entry, cleared and linked, in front of the old chain. */
    twostate lemma ChainGrown(k: nat, new entry: IpAccessEntry)
      requires old(heads.Length == |chains| > k && ChainOk(k)) && |chains| == heads.Length
      requires chains[k] == [entry] + old(chains[k]) && heads[k] == entry && entry.next == old(heads[k])
      requires forall e | e in old(chains[k]) :: unchanged(e) && unchanged(e.accessCount)
      requires Bucket(entry.ipaddr, |chains|) == k && entry.ipaddr !in old(model)
      requires model == old(model)[entry.ipaddr := entry.AsRing()] && !entry.pooled
      ensures ChainOk(k)
    {
      ghost var s := old(chains[k]);
      SeqKept(k);
      hide Chain, InBucket, Ringed, Flagged;
      ChainPush(entry, s);
      BucketPush(entry, s, k, |chains|, old(model));
    }

    twostate lemma ConservedMore(new entry: IpAccessEntry, k: nat)
      requires old(|chains| > k && Conserved()) && k == Bucket(entry.ipaddr, |old(chains)|) && !entry.pooled
      requires chains == old(chains)[k := [entry] + old(chains)[k]]
      requires entries == old(entries) + {entry} && entry !in pool
      requires pool == old(pool) || (old(pool) != [] && entry == old(pool)[0] && pool == old(pool)[1..])
      requires forall e | e in old(entries) && e != entry :: e.pooled == old(e.pooled) && e.ipaddr == old(e.ipaddr)
      ensures Conserved()
    {
      forall e | e in entries && !e.pooled ensures e in chains[Bucket(e.ipaddr, |chains|)] {
        if e == entry {
          assert entry in chains[k];
        } else {
          assert e in old(chains)[Bucket(e.ipaddr, |chains|)];
        }
      }
    }

    twostate lemma TableGrown(new entry: IpAccessEntry, k: nat)
      requires old(TableOk()) && k < |old(chains)| && k == Bucket(entry.ipaddr, |old(chains)|)
      requires entries == old(entries) && entry in entries
      requires chains == old(chains)[k := [entry] + old(chains)[k]]
      requires heads[k] == entry && entry.next == old(heads[k]) && !entry.pooled
      requires forall j | 0 <= j < heads.Length && j != k :: heads[j] == old(heads[j])
      requires entry.AsRing() == Fresh() && entry.ipaddr !in old(model) && model == old(model)[entry.ipaddr := Fresh()]
      requires forall e | e in old(entries) && e != entry :: unchanged(e) && unchanged(e.accessCount)
      requires forall j | 0 <= j < |old(chains)| :: entry !in old(chains)[j]
      ensures TableOk()
    {
      forall j | 0 <= j < |chains| ensures ChainOk(j) {
        if j == k {
          ChainGrown(k, entry);
        } else {
          ChainKept(j);
        }
      }
      forall ip | ip in model ensures Holds(chains[Bucket(ip, |chains|)], ip) {
        var b := Bucket(ip, |chains|);
        if ip == entry.ipaddr {
          assert entry in chains[b];
        } else {
          assert old(Holds(chains[b], ip));
          var e :| e in old(chains)[b] && old(e.ipaddr) == ip;
          assert e in old(entries) && e != entry && e in chains[b];
        }
      }
    }

    lemma RingOfEntry(e: IpAccessEntry)
      requires Valid() && e in chains[Bucket(e.ipaddr, |chains|)]
      ensures e in entries && e.ipaddr in model && model[e.ipaddr] == e.AsRing()
    {
      assert ChainOk(Bucket(e.ipaddr, |chains|));
      assert Ringed(chains[Bucket(e.ipaddr, |chains|)], model);
    }

    /** One entry counted an attempt; everything else stayed. */
    twostate predicate OnlyCounted(entry: IpAccessEntry)
      reads this, heads, entries, CellsOf(entries), entry, entry.accessCount
    {
      && chains == old(chains) && entries == old(entries) && pool == old(pool) && releasePool == old(releasePool)
      && (forall k | 0 <= k < heads.Length :: heads[k] == old(heads[k]))
      && (forall e | e in entries :: e.next == old(e.next) && e.ipaddr == old(e.ipaddr) && e.pooled == old(e.pooled))
      && (forall e | e in entries && e != entry :: e.AsRing() == old(e.AsRing()))
    }

    twostate lemma TableCounted(entry: IpAccessEntry)
      requires old(TableOk()) && OnlyCounted(entry)
      requires entry in entries && entry in chains[Bucket(entry.ipaddr, |chains|)]
      requires |entry.AsRing().cells| == RESERVED_ENTRY && model == old(model)[entry.ipaddr := entry.AsRing()]
      ensures TableOk()
    {
      forall k | 0 <= k < |chains| ensures ChainOk(k) {
        assert old(ChainOk(k));
        assert old(Ringed(chains[k], model));
        forall e | e in chains[k] ensures e.ipaddr in model && model[e.ipaddr] == e.AsRing() {
          assert e in entries;
        }
      }
      forall ip | ip in model ensures Holds(chains[Bucket(ip, |chains|)], ip) {
        if ip != entry.ipaddr {
          assert old(Holds(chains[Bucket(ip, |chains|)], ip));
          var e :| e in chains[Bucket(ip, |chains|)] && old(e.ipaddr) == ip;
          assert e in entries && e.ipaddr == ip;
        }
      }
    }

    twostate lemma RestCounted(entry: IpAccessEntry)
      requires old(|chains| > 0 && Owned(entries) && PoolOk() && Conserved()) && OnlyCounted(entry)
      ensures Owned(entries) && PoolOk() && Conserved()
    {
    }

    constructor (hashSize: nat)
      requires hashSize > 0
      ensures Valid() && fresh(heads) && heads.Length == hashSize
      ensures model == map[] && entries == {} && recentIndex == -1 && Logged()
    {
      heads := new IpAccessEntry?[hashSize](_ => null);
      releasePool, recentIndex := null, -1;
      chains, pool, entries, model, logs := seq(hashSize, _ => []), [], {}, map[], map[];
    }

    /** `ip % hash_buffer_size`, stated by its meaning. */
    method HashIndex(ip: nat) returns (k: nat)
      requires Valid()
      ensures Valid() && k == Bucket(ip, |chains|)
    {
      assert heads.Length == |chains|;
      hide Valid;
      BucketIsMod(ip, heads.Length);
      k := ip % heads.Length;
    }

    lemma ChainOf(ip: nat) returns (s: seq<IpAccessEntry>)
      requires Valid()
      ensures heads.Length == |chains| > 0 && s == chains[Bucket(ip, |chains|)]
      ensures Chain(heads[Bucket(ip, |chains|)], s) && (Holds(s, ip) <==> ip in model)
    {
      s := chains[Bucket(ip, |chains|)];
      assert ChainOk(Bucket(ip, |chains|));
      assert Ringed(s, model);
    }

    method Find(ip: nat) returns (entry: IpAccessEntry?)
      requires Valid()
      ensures entry == null <==> ip !in model
      ensures entry != null ==> entry in chains[Bucket(ip, |chains|)] && entry.ipaddr == ip
    {
      hide Valid;
      var hashIndex := HashIndex(ip);
      ghost var s := ChainOf(ip);
      entry := heads[hashIndex];
      ghost var i := 0;
      while entry != null
        invariant 0 <= i <= |s| && entry == After(s, i - 1)
        invariant forall j | 0 <= j < i :: s[j].ipaddr != ip
        decreases |s| - i
      {
        if entry.ipaddr == ip {
          return;
        }
        assert s[i].next == After(s, i);
        entry, i := entry.next, i + 1;
      }
      assert !Holds(s, ip);
    }

    /** The head of the pool, or a newly allocated entry. */
    method AllocateNewEntry() returns (entry: IpAccessEntry)
      requires Valid()
      modifies `releasePool, `pool, `entries
      ensures old(pool) != [] ==> entry == old(pool)[0] && pool == old(pool)[1..] && entries == old(entries)
      ensures old(pool) == [] ==> fresh(entry) && fresh(entry.accessCount) && pool == [] && entries == old(entries) + {entry} && !entry.pooled
      ensures Owned(entries) && TableOk() && PoolOk() && entry in entries && entry !in pool
      ensures forall k | 0 <= k < |chains| :: entry !in chains[k]
    {
      forall k, e | 0 <= k < |chains| && e in chains[k] ensures !e.pooled {
        assert ChainOk(k);
      }
      if releasePool != null {
        ChainTail(releasePool, pool);
        entry := releasePool;
        releasePool := releasePool.next;
        pool := pool[1..];
      } else {
        entry := new IpAccessEntry();
        entries := entries + {entry};
      }
      forall k | 0 <= k < |chains| ensures ChainOk(k) {
        ChainKept(k);
      }
    }

    /** A new record for an unknown address goes to the head of its chain. */
    method Insert(ip: nat, now: int) returns (entry: IpAccessEntry)
      requires Valid() && ip !in model
      modifies this, heads, pool, CellsOf(entries)
      ensures Valid() && model == old(model)[ip := Fresh()]
      ensures entry in entries && entry.ipaddr == ip && entry.successCounter == 0 && entry.logTime == now
      ensures entry in chains[Bucket(ip, |chains|)]
      ensures chains == old(chains)[Bucket(ip, |old(chains)|) := [entry] + old(chains)[Bucket(ip, |old(chains)|)]]
      ensures old(pool) != [] ==> entry == old(pool)[0] && pool == old(pool)[1..] && entries == old(entries)
      ensures old(pool) == [] ==> fresh(entry) && fresh(entry.accessCount) && pool == [] && entries == old(entries) + {entry}
      ensures recentIndex == old(recentIndex) && logs == old(logs)[ip := now] && (old(Logged()) ==> Logged())
    {
      hide Valid, TableOk, PoolOk, Conserved, Owned, Logged;
      MakeTable();
      entry := InsertEntry(ip, now);
      LogsGrow(entry, Bucket(ip, |old(chains)|));
    }

    lemma MakeTable()
      requires Valid()
      ensures TableOk() && |chains| > 0
    {
    }

    method InsertEntry(ip: nat, now: int) returns (entry: IpAccessEntry)
      requires Valid() && ip !in model
      modifies this, heads, pool, CellsOf(entries)
      ensures Valid() && model == old(model)[ip := Fresh()]
      ensures entry in entries && entry.ipaddr == ip && entry.successCounter == 0 && entry.logTime == now
      ensures entry in chains[Bucket(ip, |chains|)]
      ensures chains == old(chains)[Bucket(ip, |old(chains)|) := [entry] + old(chains)[Bucket(ip, |old(chains)|)]]
      ensures old(pool) != [] ==> entry == old(pool)[0] && pool == old(pool)[1..] && entries == old(entries)
      ensures old(pool) == [] ==> fresh(entry) && fresh(entry.accessCount) && pool == [] && entries == old(entries) + {entry}
      ensures recentIndex == old(recentIndex) && logs == old(logs)[ip := now]
      ensures forall e | e in old(entries) && e != entry :: e.logTime == old(e.logTime) && e.ipaddr == old(e.ipaddr)
      ensures forall b | 0 <= b < |old(chains)| :: entry !in old(chains)[b]
    {
      var hashIndex := HashIndex(ip);
      entry := AllocateNewEntry();
      Link(entry, hashIndex, ip, now);
      ConservedMore(entry, hashIndex);
    }

    twostate lemma LogsGrow(new entry: IpAccessEntry, k: nat)
      requires old(TableOk()) && k < |old(chains)| && chains == old(chains)[k := [entry] + old(chains)[k]]
      requires entry.ipaddr !in old(model) && logs == old(logs)[entry.ipaddr := entry.logTime]
      requires entry in entries && old(entries) <= entries
      requires forall e | e in old(entries) && e != entry :: e.logTime == old(e.logTime) && e.ipaddr == old(e.ipaddr)
      requires forall b | 0 <= b < |old(chains)| :: entry !in old(chains)[b]
      ensures old(Logged()) ==> Logged()
    {
      if old(Logged()) {
        forall b, e | 0 <= b < |chains| && e in chains[b] ensures e in entries && e.ipaddr in logs && logs[e.ipaddr] == e.logTime {
          if e != entry {
            assert old(ChainOk(b)) && e in old(chains)[b];
            assert old(Ringed(chains[b], model));
          }
        }
      }
    }

    /** Clears the taken entry and makes it the first of its chain. */
    method Link(entry: IpAccessEntry, hashIndex: nat, ip: nat, now: int)
      requires Owned(entries) && TableOk() && PoolOk() && entry in entries && entry !in pool
      requires hashIndex == Bucket(ip, |chains|) && ip !in model
      requires forall k | 0 <= k < |chains| :: entry !in chains[k]
      modifies `chains, `model, `logs, heads, entry, entry.accessCount
      ensures entry.ipaddr == ip && entry.successCounter == 0 && entry.logTime == now && !entry.pooled
      ensures chains == old(chains)[hashIndex := [entry] + old(chains)[hashIndex]]
      ensures model == old(model)[ip := Fresh()] && logs == old(logs)[ip := now]
      ensures TableOk() && PoolOk()
    {
      ghost var chain := chains[hashIndex];
      assert ChainOk(hashIndex);
      entry.Reset(ip, now);
      entry.pooled := false;
      entry.next := heads[hashIndex];
      heads[hashIndex] := entry;
      chains := chains[hashIndex := [entry] + chain];
      model := model[ip := Fresh()];
      logs := logs[ip := now];
      TableGrown(entry, hashIndex);
    }

    /** Counts one attempt in an entry of the table. */
    method CountIn(entry: IpAccessEntry, slotIndex: nat)
      requires Valid() && entry in entries && entry in chains[Bucket(entry.ipaddr, |chains|)]
      requires entry.ipaddr in model && model[entry.ipaddr] == entry.AsRing()
      modifies `model, entry`counter, entry.accessCount
      ensures Valid() && model == old(model)[entry.ipaddr := Hit(old(model)[entry.ipaddr], slotIndex)]
      ensures entry.counter == model[entry.ipaddr].total
    {
      entry.CountAttempt(slotIndex % RESERVED_ENTRY, slotIndex);
      model := model[entry.ipaddr := Hit(model[entry.ipaddr], slotIndex)];
      TableCounted(entry);
      RestCounted(entry);
    }

    /** The entry of `ip`, made if it has none. */
    method FindOrInsert(ip: nat, now: int) returns (entry: IpAccessEntry)
      requires Valid()
      modifies this, heads, entries, CellsOf(entries)
      ensures Valid() && model == old(model)[ip := RingOf(old(model), ip)] && recentIndex == old(recentIndex)
      ensures logs == (if ip in old(model) then old(logs) else old(logs)[ip := now]) && (old(Logged()) ==> Logged())
      ensures entry.ipaddr == ip && entry in chains[Bucket(ip, |chains|)]
      ensures old(entries) <= entries && fresh(entries - old(entries)) && fresh(CellsOf(entries) - old(CellsOf(entries)))
    {
      var found := Find(ip);
      if found == null {
        entry := Insert(ip, now);
      } else {
        entry := found;
      }
    }

    /** find_and_increase, as one step. */
    method FindAndIncrease(ip: nat, slotIndex: nat, now: int) returns (entry: IpAccessEntry)
      requires Valid()
      modifies this, heads, entries, CellsOf(entries)
      ensures Valid() && model == Step(old(model), Attempt(ip, slotIndex)) && recentIndex == old(recentIndex)
      ensures entry.ipaddr == ip && entry.counter == model[ip].total && entry in entries && entry in chains[Bucket(ip, |chains|)]
      ensures logs == if ip in old(model) then old(logs) else old(logs)[ip := now]
      ensures old(Logged()) ==> Logged() && ip in logs && entry.logTime == logs[ip]
      ensures old(entries) <= entries && fresh(entries - old(entries)) && fresh(CellsOf(entries) - old(CellsOf(entries)))
    {
      hide Valid, TableOk, PoolOk, Conserved, Owned;
      entry := FindOrInsert(ip, now);
      RingOfEntry(entry);
      CountIn(entry, slotIndex);
    }

    /** Whatever is in the table has a log time. */
    lemma LogsOf()
      requires Valid() && Logged()
      ensures forall ip | ip in model :: ip in logs
    {
      forall ip | ip in model ensures ip in logs {
        assert Holds(chains[Bucket(ip, |chains|)], ip);
      }
    }

    /** Notes a new log time. */
    method NoteTime(entry: IpAccessEntry, now: int)
      requires Valid() && Logged() && entry in entries && entry in chains[Bucket(entry.ipaddr, |chains|)]
      modifies `logs, entry`logTime
      ensures Valid() && Logged() && logs == old(logs)[entry.ipaddr := now]
    {
      hide Logged, ChainOk, Bucket;
      OnlyRecord(entry);
      RingOfEntry(entry);
      SetTime(entry, now);
      TableCounted(entry);
      RestCounted(entry);
      LogsNoted(entry, now);
    }

    method SetTime(entry: IpAccessEntry, now: int)
      modifies `logs, entry`logTime
      ensures logs == old(logs)[entry.ipaddr := now] && entry.logTime == now
    {
      entry.logTime := now;
      logs := logs[entry.ipaddr := now];
    }

    twostate lemma LogsNoted(entry: IpAccessEntry, new now: int)
      requires old(Logged()) && chains == old(chains) && entries == old(entries) && logs == old(logs)[entry.ipaddr := now] && entry.logTime == now
      requires forall k, e | 0 <= k < |chains| && e in chains[k] && e.ipaddr == entry.ipaddr :: e == entry
      requires forall e | e in entries :: e.ipaddr == old(e.ipaddr) && (e != entry ==> e.logTime == old(e.logTime))
      ensures Logged()
    {
    }

    /** No other record in the table has that address. */
    lemma OnlyRecord(entry: IpAccessEntry)
      requires Valid() && entry in chains[Bucket(entry.ipaddr, |chains|)]
      ensures forall k, e | 0 <= k < |chains| && e in chains[k] && e.ipaddr == entry.ipaddr :: e == entry
    {
      forall k, e | 0 <= k < |chains| && e in chains[k] && e.ipaddr == entry.ipaddr ensures e == entry {
        assert ChainOk(k) && InBucket(chains[k], k, |chains|);
      }
    }

    /** Pushes an entry on the pool. */
    method FreeEntry(entry: IpAccessEntry)
      requires PoolOk() && !entry.pooled
      modifies `releasePool, `pool, entry`next, entry`pooled
      ensures PoolOk() && pool == [entry] + old(pool) && entry.pooled
    {
      entry.next := releasePool;
      entry.pooled := true;
      ChainPush(entry, pool);
      releasePool := entry;
      pool := [entry] + pool;
    }

    /** Moves a whole free list to the pool. */
    method ReleaseAll(list: IpAccessEntry?, ghost freed: seq<IpAccessEntry>)
      requires PoolOk() && Chain(list, freed) && Distinct(freed) && Flagged(freed, false)
      modifies `releasePool, `pool, Elements(freed)`next, Elements(freed)`pooled
      ensures PoolOk() && pool == Reversed(freed) + old(pool) && Flagged(freed, true)
    {
      hide Reversed, PoolOk, Chain, After;
      ChainLinks(list, freed);
      ReversedStart(freed);
      var freeList := list;
      ghost var i, back := 0, [];
      while freeList != null
        invariant 0 <= i <= |freed| && freeList == After(freed, i - 1)
        invariant forall j | i <= j < |freed| :: freed[j].next == After(freed, j) && !freed[j].pooled
        invariant back == Reversed(freed[..i]) && PoolOk() && pool == back + old(pool)
        invariant forall j | 0 <= j < i :: freed[j].pooled
        decreases |freed| - i
      {
        AfterAt(freed, i);
        var entry := freeList;
        freeList := freeList.next;
        assert entry == freed[i] && entry in Elements(freed);
        assert forall j | i < j < |freed| :: freed[j] != freed[i];
        FreeEntry(entry);
        ReversedStep(freed, i);
        assert [entry] + (back + old(pool)) == ([entry] + back) + old(pool);
        i, back := i + 1, [entry] + back;
      }
      AfterAt(freed, i);
      assert freed[..i] == freed;
    }

    /** What the walk over chain `k` and the release of its empty entries did. */
    /** What a pass does to its own chain. */
    twostate predicate Walked(k: nat, slotIndex: nat)
      requires k < |old(chains)| && |old(chains)| == heads.Length
      reads *
    {
      var s := old(chains)[k];
      && entries == old(entries) && Elements(s) <= entries && logs == old(logs)
      && chains == old(chains)[k := Kept(s)]
      && model == SweptBucket(old(model), slotIndex, k, |old(chains)|)
      && (forall j | 0 <= j < heads.Length && j != k :: heads[j] == old(heads[j]))
      && Chain(heads[k], Kept(s))
      && (forall e | e in s :: e.ipaddr == old(e.ipaddr) && e.logTime == old(e.logTime) && e.AsRing() == Cleaned(old(e.AsRing()), slotIndex))
      && (forall e | e in s :: e.pooled <==> e in Dropped(s))
    }

    twostate predicate Pruned(k: nat, slotIndex: nat)
      requires k < |old(chains)| && |old(chains)| == heads.Length
      reads *
    {
      Walked(k, slotIndex) && forall e | e in entries && e !in old(chains)[k] :: unchanged(e) && unchanged(e.accessCount)
    }

    twostate lemma ChainPruned(k: nat, new slotIndex: nat)
      requires old(heads.Length == |chains| > k && ChainOk(k)) && Pruned(k, slotIndex)
      ensures ChainOk(k)
    {
      ghost var s := old(chains[k]);
      assert old(InBucket(s, k, heads.Length)) && old(Ringed(s, model));
      assert InBucket(s, k, heads.Length) by {
        assert forall i | 0 <= i < |s| :: s[i] in s;
      }
      KeptInBucket(s, k, heads.Length);
      Parted(s);
    }

    twostate lemma TablePruned(k: nat, new slotIndex: nat)
      requires old(TableOk()) && k < |old(chains)| && Pruned(k, slotIndex)
      ensures TableOk()
    {
      ghost var s := old(chains[k]);
      Parted(s);
      forall j | 0 <= j < |chains| ensures ChainOk(j) {
        assert old(ChainOk(j));
        if j == k {
          ChainPruned(k, slotIndex);
        } else {
          Apart(j, k);
          ChainKept(j);
        }
      }
      forall ip | ip in model ensures Holds(chains[Bucket(ip, |chains|)], ip) {
        var b := Bucket(ip, |chains|);
        assert old(Holds(chains[b], ip));
        var e :| e in old(chains)[b] && old(e.ipaddr) == ip;
        assert e in entries;
        if b == k {
          assert old(ChainOk(k)) && old(Ringed(s, model));
          assert e in Kept(s);
        }
      }
    }

    /** Different buckets share no entry. */
    twostate lemma Apart(new j: nat, k: nat)
      requires old(heads.Length == |chains| > j && k < |chains| && ChainOk(j) && ChainOk(k)) && j != k
      ensures forall e | e in old(chains[j]) :: e !in old(chains[k])
    {
      assert old(InBucket(chains[j], j, |chains|)) && old(InBucket(chains[k], k, |chains|));
    }

    lemma PruneReady(k: nat)
      requires Valid() && k < heads.Length
      ensures heads.Length == |chains| && Chain(heads[k], chains[k]) && Distinct(chains[k])
      ensures Elements(chains[k]) <= entries && Owned(Elements(chains[k]))
      ensures Owned(entries) && PoolOk() && TableOk() && Conserved() && ChainOk(k)
      ensures Flagged(chains[k], false) && forall e | e in pool :: e in entries && e !in chains[k]
    {
      assert ChainOk(k);
      KeptInBucket(chains[k], k, |chains|);
    }

    /** The walk over one chain, without the release of what it emptied. */
    method WalkChain(k: nat, index: nat, slotIndex: nat) returns (freeList: IpAccessEntry?, released: nat)
      requires Valid() && k < heads.Length && index == slotIndex % RESERVED_ENTRY
      modifies `chains, `model, heads, Elements(chains[k])`next, Elements(chains[k])`counter, ElementCells(chains[k])
      ensures |old(chains)| == heads.Length && chains == old(chains)[k := Kept(old(chains)[k])]
      ensures model == SweptBucket(old(model), slotIndex, k, |chains|)
      ensures forall j | 0 <= j < heads.Length && j != k :: heads[j] == old(heads[j])
      ensures Chain(heads[k], chains[k]) && Chain(freeList, Dropped(old(chains)[k])) && released == |Dropped(old(chains)[k])|
      ensures forall e | e in old(chains)[k] :: e.AsRing() == Cleaned(old(e.AsRing()), slotIndex)
      ensures PoolOk()
    {
      hide Valid, ChainOk, Flagged, Conserved, TableOk, SweptBucket;
      hide Cleaned, Kept, Dropped, Chain, CleanedUpTo, Owned, Distinct, PoolOk;
      PruneReady(k);
      ghost var s := chains[k];
      ghost var rings := RingsNow(s, slotIndex);
      freeList, released := PruneChain(heads, k, s, rings, index, slotIndex);
      assert PoolOk() && Chain(heads[k], Kept(s)) && Chain(freeList, Dropped(s));
      AllCleaned(s, rings, slotIndex);
      forall e | e in s ensures e.AsRing() == Cleaned(old(e.AsRing()), slotIndex) {
        var j :| 0 <= j < |s| && s[j] == e;
        assert rings[j] == old(s[j].AsRing());
      }
      chains := chains[k := Kept(s)];
      model := SweptBucket(model, slotIndex, k, |chains|);
    }

    /** Afterwards every entry is still in exactly one place. */
    twostate lemma ConservedPruned(k: nat, new slotIndex: nat)
      requires old(|chains| == heads.Length > k && Conserved() && ChainOk(k)) && k < |old(chains)| && Pruned(k, slotIndex)
      requires pool == Reversed(Dropped(old(chains)[k])) + old(pool)
      ensures Conserved() && forall e | e in pool :: e in entries
    {
      hide Kept, Dropped, Reversed, Cleaned, Chain, SweptBucket, Distinct, Bucket;
      ghost var s := old(chains)[k];
      Parted(s);
      ReversedHas(Dropped(s));
      forall e | e in entries && !e.pooled ensures e in chains[Bucket(e.ipaddr, |chains|)] {
        if e in s {
          assert e in Kept(s) && old(InBucket(chains[k], k, |chains|));
        }
      }
    }

    lemma {:induction false} ReversedHas(s: seq<IpAccessEntry>)
      ensures forall e | e in s :: e in Reversed(s)
    {
      if s != [] {
        ReversedHas(s[..|s| - 1]);
        assert forall e | e in s :: e in s[..|s| - 1] || e == s[|s| - 1];
      }
    }

    /** Prunes one chain and releases what it emptied. */
    method PruneAndRelease(k: nat, index: nat, slotIndex: nat) returns (released: nat)
      requires Valid() && k < heads.Length && index == slotIndex % RESERVED_ENTRY
      modifies `chains, `model, `releasePool, `pool, heads, Elements(chains[k])`next, Elements(chains[k])`counter, Elements(chains[k])`pooled, ElementCells(chains[k])
      ensures |old(chains)| == heads.Length && Walked(k, slotIndex)
      ensures Owned(entries) && PoolOk()
      ensures pool == Reversed(Dropped(old(chains)[k])) + old(pool) && released == |Dropped(old(chains)[k])|
    {
      hide Valid, TableOk, ChainOk, PoolOk, Conserved, Owned, Cleaned, Kept, Dropped, Chain, Distinct, SweptBucket, Reversed;
      hide IpAccessEntry.AsRing;
      PruneReady(k);
      ghost var s := chains[k];
      var freeList: IpAccessEntry?;
      freeList, released := WalkChain(k, index, slotIndex);
      ReleaseDropped(freeList, heads[k], s);
    }

    /** Releases the free list of a walked chain; the kept entries stay chained. */
    method ReleaseDropped(freeList: IpAccessEntry?, ghost head: IpAccessEntry?, ghost s: seq<IpAccessEntry>)
      requires PoolOk() && Distinct(s) && Flagged(s, false)
      requires Chain(freeList, Dropped(s)) && Chain(head, Kept(s))
      modifies `releasePool, `pool, Elements(s)`next, Elements(s)`pooled
      ensures PoolOk() && pool == Reversed(Dropped(s)) + old(pool)
      ensures Chain(head, Kept(s)) && forall e | e in s :: e.pooled <==> e in Dropped(s)
      ensures Kept(s) == old(Kept(s)) && Dropped(s) == old(Dropped(s))
    {
      hide PoolOk, Kept, Dropped, Chain, Distinct, Reversed, After;
      DroppedReady(s);
      ghost var kept, dropped := Kept(s), Dropped(s);
      ChainLinks(head, kept);
      assert forall i | 0 <= i < |kept| :: kept[i] in kept && kept[i] !in Elements(dropped);
      ReleaseAll(freeList, dropped);
      assert Kept(s) == kept && Dropped(s) == dropped;
      ChainMade(head, kept);
    }

    /** One bucket of the pass. */
    method SweepBucket(k: nat, index: nat, slotIndex: nat) returns (released: nat)
      requires Valid() && k < heads.Length && index == slotIndex % RESERVED_ENTRY
      modifies this, heads, entries, CellsOf(entries)
      ensures Valid() && entries == old(entries) && recentIndex == old(recentIndex)
      ensures |old(chains)| == heads.Length && model == SweptBucket(old(model), slotIndex, k, |old(chains)|)
      ensures chains == old(chains)[k := Kept(old(chains)[k])]
      ensures logs == old(logs) && (old(Logged()) ==> Logged())
      ensures pool == Reversed(Dropped(old(chains)[k])) + old(pool) && released == |Dropped(old(chains)[k])|
    {
      hide Valid, TableOk, ChainOk, PoolOk, Conserved, Owned, Cleaned, Kept, Dropped, Chain, SweptBucket, Reversed;
      PruneReady(k);
      OwnCells(k);
      ghost var s := chains[k];
      released := PruneAndRelease(k, index, slotIndex);
      assert forall e | e in entries && e !in s :: unchanged(e) && unchanged(e.accessCount);
      TablePruned(k, slotIndex);
      ConservedPruned(k, slotIndex);
      MakeValid();
      LogsPruned(k, slotIndex);
    }

    twostate lemma LogsPruned(k: nat, new slotIndex: nat)
      requires k < |old(chains)| && |old(chains)| == heads.Length && Pruned(k, slotIndex)
      ensures logs == old(logs) && (old(Logged()) ==> Logged())
    {
      hide Chain, Kept, Dropped, SweptBucket, Cleaned, Elements;
      Parted(old(chains)[k]);
    }

    /** Entries outside a chain do not share its cells. */
    lemma OwnCells(k: nat)
      requires Valid() && k < |chains|
      ensures forall e | e in entries && e !in chains[k] :: e.accessCount !in ElementCells(chains[k])
    {
    }

    lemma MakeValid()
      requires (forall e | e in pool :: e in entries) && Owned(entries) && TableOk() && PoolOk() && Conserved()
      ensures Valid()
    {
    }

    lemma DroppedReady(s: seq<IpAccessEntry>)
      requires Distinct(s) && Flagged(s, false)
      ensures Distinct(Dropped(s)) && Flagged(Dropped(s), false) && Elements(Dropped(s)) <= Elements(s)
      ensures forall e | e in Kept(s) :: e !in Dropped(s) && e in s
      ensures forall e | e in s && e !in Dropped(s) :: e in Kept(s)
    {
      Parted(s);
    }

    /** The expiry pass. It runs only when the slot differs, modulo the ring, from the last pass. */
    method Expiring(slotIndex: nat) returns (released: nat)
      requires Valid()
      modifies this, heads, entries, CellsOf(entries)
      ensures Valid() && entries == old(entries)
      ensures old(recentIndex) == slotIndex % RESERVED_ENTRY ==> model == old(model) && chains == old(chains) && pool == old(pool)
      ensures old(recentIndex) != slotIndex % RESERVED_ENTRY ==> model == Step(old(model), Sweep(slotIndex))
      ensures logs == old(logs) && (old(Logged()) ==> Logged())
      ensures recentIndex == slotIndex % RESERVED_ENTRY && |pool| == |old(pool)| + released
    {
      hide Valid, Logged, Reversed, Dropped, SweptBucket, SweptUpTo, Swept, Cleaned;
      released := 0;
      var index := slotIndex % RESERVED_ENTRY;
      if index != recentIndex {
        TableSize();
        SweptEnds(model, slotIndex, |chains|);
        var k := 0;
        while k < heads.Length
          invariant 0 <= k <= heads.Length == |chains| && heads.Length > 0
          invariant Valid() && entries == old(entries) && recentIndex == old(recentIndex)
          invariant model == SweptUpTo(old(model), slotIndex, k, heads.Length)
          invariant |pool| == |old(pool)| + released && logs == old(logs) && (old(Logged()) ==> Logged())
        {
          var freed := SweepBucket(k, index, slotIndex);
          SweptNext(old(model), slotIndex, k, heads.Length);
          released, k := released + freed, k + 1;
        }
        recentIndex := index;
      }
    }

    lemma TableSize()
      requires Valid()
      ensures |chains| == heads.Length > 0
    {
    }
  }
}
