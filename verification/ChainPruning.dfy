/** The expiry thread's walk over one chain: clean every entry, unlink the empty ones through the
    pointer to the previous link, and collect them on a free list. */
module ChainPruning {
  import opened Sequences
  import opened AccessRing
  import opened EntryChains

  ghost function Elements(s: seq<IpAccessEntry>): set<IpAccessEntry> {
    set e | e in s
  }

  ghost function Reversed(s: seq<IpAccessEntry>): (r: seq<IpAccessEntry>)
    ensures |r| == |s| && forall e | e in r :: e in s
  {
    if s == [] then [] else [s[|s| - 1]] + Reversed(s[..|s| - 1])
  }

  /** The entries with something left to count, in order. */
  ghost function Kept(s: seq<IpAccessEntry>): (kept: seq<IpAccessEntry>)
    reads s`counter
  {
    if s == [] then []
    else
      var last := s[|s| - 1];
      Kept(s[..|s| - 1]) + if last.counter != 0 then [last] else []
  }

  /** The emptied entries, last one first. */
  ghost function Dropped(s: seq<IpAccessEntry>): (dropped: seq<IpAccessEntry>)
    reads s`counter
  {
    if s == [] then []
    else
      var last := s[|s| - 1];
      (if last.counter != 0 then [] else [last]) + Dropped(s[..|s| - 1])
  }

  lemma {:induction false} Parted(s: seq<IpAccessEntry>)
    ensures forall e | e in s :: if e.counter != 0 then e in Kept(s) else e in Dropped(s)
    ensures forall e | e in Kept(s) :: e in s && e.counter != 0
    ensures forall e | e in Dropped(s) :: e in s && e.counter == 0
    ensures Distinct(s) ==> Distinct(Kept(s)) && Distinct(Dropped(s))
  {
    if s != [] {
      var before := s[..|s| - 1];
      Parted(before);
      assert forall e | e in s :: e in before || e == s[|s| - 1];
      if Distinct(s) {
        assert s[|s| - 1] !in before;
      }
    }
  }

  /** What stays of a bucket is still a bucket. */
  lemma {:induction false} KeptInBucket(s: seq<IpAccessEntry>, k: nat, n: nat)
    requires n > 0 && InBucket(s, k, n)
    ensures InBucket(Kept(s), k, n) && Distinct(s) && Distinct(Dropped(s))
  {
    Parted(s);
    KeptAddresses(s);
  }

  lemma {:induction false} KeptAddresses(s: seq<IpAccessEntry>)
    requires forall i, j | 0 <= i < j < |s| :: s[i].ipaddr != s[j].ipaddr
    ensures forall i, j | 0 <= i < j < |Kept(s)| :: Kept(s)[i].ipaddr != Kept(s)[j].ipaddr
  {
    if s != [] {
      var before, last := s[..|s| - 1], s[|s| - 1];
      KeptAddresses(before);
      Parted(before);
      var kept := Kept(before);
      forall i | 0 <= i < |kept| ensures kept[i].ipaddr != last.ipaddr {
        assert kept[i] in before;
      }
    }
  }

  /** The link that leads to the entry after `kept`: the header (null) or the last kept entry. */
  ghost function LastOf(kept: seq<IpAccessEntry>): IpAccessEntry? {
    if kept == [] then null else kept[|kept| - 1]
  }

  lemma ChainUnlinked(head: IpAccessEntry?, kept: seq<IpAccessEntry>, rest: seq<IpAccessEntry>)
    requires head == After(kept + rest, -1)
    requires forall i | 0 <= i < |kept| :: kept[i].next == After(kept + rest, i)
    requires forall i | 0 <= i < |rest| :: rest[i].next == After(rest, i)
    ensures Chain(head, kept + rest)
  {
    forall i | 0 <= i < |kept + rest| ensures (kept + rest)[i].next == After(kept + rest, i) {
      if i >= |kept| {
        assert rest[i - |kept|].next == After(rest, i - |kept|);
      }
    }
  }

  lemma BeforeUnlink(head: IpAccessEntry?, entry: IpAccessEntry, freeList: IpAccessEntry?,
                     kept: seq<IpAccessEntry>, rest: seq<IpAccessEntry>, dropped: seq<IpAccessEntry>)
    requires Chain(head, kept + [entry] + rest) && Distinct(kept + [entry] + rest)
    requires Chain(freeList, dropped) && forall e | e in dropped :: e !in kept + [entry] + rest
    ensures entry.next == After(rest, -1) && head == After(kept + [entry], -1) && freeList == After(dropped, -1)
    ensures forall i | 0 <= i < |rest| :: rest[i].next == After(rest, i) && rest[i] != entry && rest[i] !in kept
    ensures forall i | 0 <= i < |kept| :: kept[i].next == After(kept + [entry] + rest, i) && kept[i] != entry
    ensures forall i | 0 <= i < |kept| - 1 :: kept[i] != kept[|kept| - 1]
    ensures forall i | 0 <= i < |dropped| :: dropped[i].next == After(dropped, i) && dropped[i] !in kept && dropped[i] != entry
  {
    var all := kept + [entry] + rest;
    assert all[|kept|] == entry && entry.next == After(all, |kept|) == After(rest, -1);
    assert forall j | 0 <= j < |kept| :: kept[j] == all[j];
    forall i | 0 <= i < |rest| ensures rest[i].next == After(rest, i) && rest[i] != entry && rest[i] !in kept {
      assert all[|kept| + 1 + i].next == After(all, |kept| + 1 + i);
    }
    forall i | 0 <= i < |dropped| ensures dropped[i].next == After(dropped, i) && dropped[i] !in kept && dropped[i] != entry {
      assert dropped[i] in dropped;
    }
  }

  /** `*prev = entry->next; entry->next = free_list`. */
  method Unlink(heads: array<IpAccessEntry?>, k: nat, prev: IpAccessEntry?, entry: IpAccessEntry, freeList: IpAccessEntry?,
                ghost kept: seq<IpAccessEntry>, ghost rest: seq<IpAccessEntry>, ghost dropped: seq<IpAccessEntry>)
    requires k < heads.Length && Chain(heads[k], kept + [entry] + rest) && Distinct(kept + [entry] + rest)
    requires prev == LastOf(kept)
    requires Chain(freeList, dropped) && forall e | e in dropped :: e !in kept + [entry] + rest
    modifies heads, Elements(kept)`next, entry`next
    ensures forall j | 0 <= j < heads.Length && j != k :: heads[j] == old(heads[j])
    ensures Chain(heads[k], kept + rest) && Chain(entry, [entry] + dropped)
    ensures (if prev == null then heads[k] else prev.next) == After(rest, -1)
  {
    ghost var all := kept + [entry] + rest;
    BeforeUnlink(heads[k], entry, freeList, kept, rest, dropped);
    hide Distinct, Chain;
    if prev == null {
      heads[k] := entry.next;
    } else {
      prev.next := entry.next;
    }
    entry.next := freeList;
    ChainUnlinked(heads[k], kept, rest);
    ChainMade(entry.next, dropped);
    ChainPush(entry, dropped);
  }

  lemma LinkAt(head: IpAccessEntry?, kept: seq<IpAccessEntry>, e: IpAccessEntry, rest: seq<IpAccessEntry>)
    requires Chain(head, kept + [e] + rest)
    ensures e.next == After(rest, -1)
  {
    var all := kept + [e] + rest;
    assert all[|kept|].next == After(all, |kept|);
  }

  lemma Advance(s: seq<IpAccessEntry>, i: nat)
    requires i < |s|
    ensures s[..i + 1][..i] == s[..i] && s[i..] == [s[i]] + s[i + 1..]
    ensures Kept(s[..i + 1]) == if s[i].counter != 0 then Kept(s[..i]) + [s[i]] else Kept(s[..i])
    ensures Dropped(s[..i + 1]) == if s[i].counter != 0 then Dropped(s[..i]) else [s[i]] + Dropped(s[..i])
  {
    assert s[..i + 1][..i] == s[..i];
  }

  lemma PruneStart(head: IpAccessEntry?, s: seq<IpAccessEntry>)
    requires Chain(head, s)
    ensures head == After(s, -1)
    ensures Kept(s[..0]) == Dropped(s[..0]) == [] && Chain(head, [] + s[0..]) && Chain(null, [])
  {
    assert [] + s[0..] == s;
  }

  /** Cleaning one entry touches no other entry's ring. */
  lemma Others(s: seq<IpAccessEntry>, i: nat)
    requires Distinct(s) && i < |s| && Owned(Elements(s))
    ensures s[i].Shaped() && forall j | 0 <= j < |s| && j != i :: s[j] != s[i] && s[j].accessCount != s[i].accessCount
  {
    assert forall j | 0 <= j < |s| :: s[j] in Elements(s);
  }

  /** Mid-walk, everything still linked is distinct and nothing linked is on the free list. */
  lemma Sides(s: seq<IpAccessEntry>, i: nat)
    requires Distinct(s) && i < |s|
    ensures s[i] !in s[..i]
    ensures Distinct(Kept(s[..i]) + [s[i]] + s[i + 1..])
    ensures forall e | e in Dropped(s[..i]) :: e !in Kept(s[..i]) + [s[i]] + s[i + 1..]
    ensures Elements(Kept(s[..i])) <= Elements(s) && s[i] in Elements(s)
  {
    Parted(s[..i]);
    hide Kept, Dropped;
    var kept, rest := Kept(s[..i]), s[i + 1..];
    assert forall e | e in s[..i] :: e != s[i] && e !in rest;
    var all := kept + [s[i]] + rest;
    forall a, b | 0 <= a < b < |all| ensures all[a] != all[b] {
      if a < |kept| {
        assert all[a] in kept;
      }
    }
  }

  /** The first `i` entries are cleaned, the others still carry the rings they came with. */
  ghost predicate CleanedUpTo(s: seq<IpAccessEntry>, rings: seq<Ring>, i: nat, slotIndex: nat)
    reads s`counter, ElementCells(s)
  {
    && |rings| == |s|
    && forall j | 0 <= j < |s| :: s[j].AsRing() == if j < i then Cleaned(rings[j], slotIndex) else rings[j]
  }

  lemma {:induction false} RingsNow(s: seq<IpAccessEntry>, slotIndex: nat) returns (rings: seq<Ring>)
    ensures CleanedUpTo(s, rings, 0, slotIndex)
    ensures |rings| == |s| && forall j | 0 <= j < |s| :: rings[j] == s[j].AsRing()
  {
    if s == [] {
      rings := [];
    } else {
      rings := RingsNow(s[..|s| - 1], slotIndex);
      rings := rings + [s[|s| - 1].AsRing()];
      forall j | 0 <= j < |s| ensures s[j].AsRing() == rings[j] {
        if j < |s| - 1 { assert s[..|s| - 1][j].AsRing() == rings[j]; }
      }
    }
  }

  lemma AllCleaned(s: seq<IpAccessEntry>, rings: seq<Ring>, slotIndex: nat)
    requires CleanedUpTo(s, rings, |s|, slotIndex)
    ensures |rings| == |s| && forall j | 0 <= j < |s| :: s[j].AsRing() == Cleaned(rings[j], slotIndex)
  {
  }

  /** Cleaning the entry the walk has reached, seen from the whole chain. */
  method CleanEntry(ghost s: seq<IpAccessEntry>, ghost rings: seq<Ring>, ghost i: nat, entry: IpAccessEntry, index: nat, slotIndex: nat)
    requires i < |s| && entry == s[i] && Distinct(s) && Owned(Elements(s)) && index == slotIndex % RESERVED_ENTRY
    requires CleanedUpTo(s, rings, i, slotIndex)
    modifies entry`counter, entry.accessCount
    ensures CleanedUpTo(s, rings, i + 1, slotIndex)
    ensures Kept(s[..i + 1]) == if entry.counter != 0 then old(Kept(s[..i])) + [entry] else old(Kept(s[..i]))
    ensures Dropped(s[..i + 1]) == if entry.counter != 0 then old(Dropped(s[..i])) else [entry] + old(Dropped(s[..i]))
  {
    hide Cleaned, Kept, Dropped;
    Others(s, i);
    ghost var kept, dropped := Kept(s[..i]), Dropped(s[..i]);
    assert entry !in s[..i];
    entry.ClearOutdatedData(index, slotIndex);
    assert Kept(s[..i]) == kept && Dropped(s[..i]) == dropped;
    Advance(s, i);
  }

  method PruneChain(heads: array<IpAccessEntry?>, k: nat, ghost s: seq<IpAccessEntry>, ghost rings: seq<Ring>, index: nat, slotIndex: nat)
    returns (freeList: IpAccessEntry?, released: nat)
    requires k < heads.Length && Chain(heads[k], s) && Distinct(s) && index == slotIndex % RESERVED_ENTRY
    requires Owned(Elements(s)) && CleanedUpTo(s, rings, 0, slotIndex)
    modifies heads, Elements(s)`next, Elements(s)`counter, ElementCells(s)
    ensures forall j | 0 <= j < heads.Length && j != k :: heads[j] == old(heads[j])
    ensures CleanedUpTo(s, rings, |s|, slotIndex)
    ensures Chain(heads[k], Kept(s)) && Chain(freeList, Dropped(s)) && released == |Dropped(s)|
  {
    hide Cleaned, CleanedUpTo, Kept, Dropped, Chain, Distinct, Owned, Elements;
    PruneStart(heads[k], s);
    freeList, released := null, 0;
    var entry := heads[k];
    var prev: IpAccessEntry? := null;  // null stands for the header
    ghost var i, kept, dropped := 0, [], [];
    while entry != null
      invariant 0 <= i <= |s| && entry == After(s, i - 1)
      invariant forall j | 0 <= j < heads.Length && j != k :: heads[j] == old(heads[j])
      invariant CleanedUpTo(s, rings, i, slotIndex)
      invariant kept == Kept(s[..i]) && dropped == Dropped(s[..i])
      invariant Chain(heads[k], kept + s[i..]) && prev == LastOf(kept)
      invariant Chain(freeList, dropped) && released == |dropped|
      decreases |s| - i
    {
      ghost var rest := s[i + 1..];
      Sides(s, i);
      assert kept + s[i..] == kept + [entry] + rest;
      LinkAt(heads[k], kept, entry, rest);
      assert Chain(heads[k], kept + [entry] + rest);
      CleanEntry(s, rings, i, entry, index, slotIndex);
      assert Chain(heads[k], kept + [entry] + rest) && Chain(freeList, dropped);
      if entry.counter == 0 {
        Unlink(heads, k, prev, entry, freeList, kept, rest, dropped);
        freeList, released := entry, released + 1;
        entry := if prev == null then heads[k] else prev.next;
        dropped := [s[i]] + dropped;
      } else {
        assert (kept + [entry]) + rest == kept + [entry] + rest;
        kept := kept + [entry];
        prev := entry;
        entry := entry.next;
      }
      i := i + 1;
    }
    assert s[..i] == s && Kept(s) + s[i..] == Kept(s);
  }
}
