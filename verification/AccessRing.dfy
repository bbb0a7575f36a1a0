/** The ring of twelve counters that one address owns, and its lazy cleaning.

    `Ring` is the value the twelve cells and the running total stand for; `IpAccessEntry` is the
    object whose cells are rewritten in place. */
module AccessRing {

  const RESERVED_ENTRY: nat := 12

  datatype Cell = Cell(count: nat, slot: int)

  datatype Ring = Ring(cells: seq<Cell>, total: int)

  function Fresh(): Ring {
    Ring(seq(RESERVED_ENTRY, _ => Cell(0, 0)), 0)
  }

  function SumCounts(cells: seq<Cell>): (sum: nat) {
    if cells == [] then 0 else SumCounts(cells[..|cells| - 1]) + cells[|cells| - 1].count
  }

  /** How many steps of the backward walk from `slot` reach cell `i`. */
  function Age(i: int, slot: int): (age: nat) {
    (slot - i) % RESERVED_ENTRY
  }

  /** The only slot in (slot - 12, slot] that cell `i` may stand for. */
  function SlotOf(i: int, slot: int): (s: int) {
    slot - Age(i, slot)
  }

  lemma SlotOfRange(i: int, slot: int)
    requires 0 <= i < RESERVED_ENTRY
    ensures SlotOf(i, slot) % RESERVED_ENTRY == i && slot - RESERVED_ENTRY < SlotOf(i, slot) <= slot
  {
  }

  lemma SlotOfUnique(s: int, slot: int)
    requires slot - RESERVED_ENTRY < s <= slot
    ensures SlotOf(s % RESERVED_ENTRY, slot) == s
  {
    assert (slot - s % RESERVED_ENTRY) % RESERVED_ENTRY == (slot - s) % RESERVED_ENTRY;
  }

  /** The walk is at cell `i` after Age(i) steps and at no other time. */
  lemma WalkStep(i: nat, slot: nat, j: nat)
    requires i < RESERVED_ENTRY && j < RESERVED_ENTRY && i == (slot - j) % RESERVED_ENTRY
    ensures Age(i, slot) == j
    ensures (i + RESERVED_ENTRY - 1) % RESERVED_ENTRY == (slot - (j + 1)) % RESERVED_ENTRY
    ensures forall k | 0 <= k < RESERVED_ENTRY :: Age(k, slot) == j ==> k == i
  {
    assert Age(i, slot) == (slot - (slot - j) % RESERVED_ENTRY) % RESERVED_ENTRY;
    forall k | 0 <= k < RESERVED_ENTRY && Age(k, slot) == j ensures k == i {
      assert (k - i) % RESERVED_ENTRY == 0;
    }
  }

  function CleanCell(c: Cell, i: int, slot: int): Cell {
    if c.slot == SlotOf(i, slot) then c else Cell(0, SlotOf(i, slot))
  }

  function CleanCells(cells: seq<Cell>, slot: int): (clean: seq<Cell>)
    ensures |clean| == |cells|
  {
    seq(|cells|, i requires 0 <= i < |cells| => CleanCell(cells[i], i, slot))
  }

  /** What cleaning at `slot` leaves: every cell on its slot, and the total lowered by what was dropped. */
  function Cleaned(r: Ring, slot: int): Ring {
    var clean := CleanCells(r.cells, slot);
    Ring(clean, r.total - (SumCounts(r.cells) - SumCounts(clean)))
  }

  /** One attempt at `slot`: clean only when the current cell carries another slot, then count. */
  function Hit(r: Ring, slot: nat): Ring
    requires |r.cells| == RESERVED_ENTRY
  {
    var index := slot % RESERVED_ENTRY;
    var c := if r.cells[index].slot != slot then Cleaned(r, slot) else r;
    Ring(c.cells[index := c.cells[index].(count := c.cells[index].count + 1)], c.total + 1)
  }

  predicate Balanced(r: Ring) {
    |r.cells| == RESERVED_ENTRY && r.total == SumCounts(r.cells)
  }

  lemma {:induction false} SumUpdate(cells: seq<Cell>, i: nat, c: Cell)
    requires i < |cells|
    ensures SumCounts(cells[i := c]) == SumCounts(cells) - cells[i].count + c.count
  {
    var last := |cells| - 1;
    if i == last {
      assert cells[i := c][..last] == cells[..last];
    } else {
      assert cells[i := c][..last] == cells[..last][i := c];
      SumUpdate(cells[..last], i, c);
    }
  }

  lemma {:induction false} SumZero(cells: seq<Cell>)
    ensures SumCounts(cells) == 0 <==> forall i | 0 <= i < |cells| :: cells[i].count == 0
  {
    if cells != [] {
      SumZero(cells[..|cells| - 1]);
      if SumCounts(cells) == 0 {
        forall i | 0 <= i < |cells| ensures cells[i].count == 0 {
          if i < |cells| - 1 { assert cells[..|cells| - 1][i].count == 0; }
        }
      }
    }
  }

  lemma {:induction false} SumSameCounts(a: seq<Cell>, b: seq<Cell>)
    requires |a| == |b| && forall i | 0 <= i < |a| :: a[i].count == b[i].count
    ensures SumCounts(a) == SumCounts(b)
  {
    if a != [] { SumSameCounts(a[..|a| - 1], b[..|b| - 1]); }
  }

  /** Whatever the clock does, the running total stays the sum of the twelve cells. */
  lemma {:induction false} TotalIsTheSum(r: Ring, slot: nat)
    ensures Balanced(Fresh())
    ensures Balanced(r) ==> Balanced(Cleaned(r, slot)) && Balanced(Hit(r, slot))
  {
    SumZero(Fresh().cells);
    if Balanced(r) {
      var index := slot % RESERVED_ENTRY;
      var c := if r.cells[index].slot != slot then Cleaned(r, slot) else r;
      SumUpdate(c.cells, index, c.cells[index].(count := c.cells[index].count + 1));
    }
  }

  /** Cleaning leaves cell (slot - j) mod 12 on slot - j for each j below 12, and keeps exactly the
      counts that were already on their slot. */
  lemma CleaningCoversTheWindow(r: Ring, slot: nat, j: nat)
    requires |r.cells| == RESERVED_ENTRY && j < RESERVED_ENTRY
    ensures var i := (slot - j) % RESERVED_ENTRY;
            var c := Cleaned(r, slot).cells[i];
            c.slot == slot - j && c.count == if r.cells[i].slot == slot - j then r.cells[i].count else 0
  {
    var i := (slot - j) % RESERVED_ENTRY;
    assert (slot - i) % RESERVED_ENTRY == j;
  }

  class IpAccessEntry {
    var ipaddr: nat
    var counter: int
    var successCounter: nat
    var logTime: int
    const accessCount: array<Cell>
    var next: IpAccessEntry?
    ghost var pooled: bool

    ghost predicate Shaped() {
      accessCount.Length == RESERVED_ENTRY
    }

    ghost function AsRing(): Ring
      reads `counter, accessCount
    {
      Ring(accessCount[..], counter)
    }

    constructor ()
      ensures Shaped() && fresh(accessCount) && next == null && !pooled
    {
      ipaddr, counter, successCounter, logTime, next := 0, 0, 0, 0, null;
      accessCount := new Cell[RESERVED_ENTRY](_ => Cell(0, 0));
      pooled := false;
    }

    /** Clears the whole record for a new address. */
    method Reset(ip: nat, now: int)
      requires Shaped()
      modifies `ipaddr, `counter, `successCounter, `logTime, accessCount
      ensures ipaddr == ip && AsRing() == Fresh() && successCounter == 0 && logTime == now
    {
      ipaddr := ip;
      counter := 0;
      successCounter := 0;
      for i := 0 to RESERVED_ENTRY
        invariant ipaddr == ip && counter == 0 && successCounter == 0
        invariant forall j | 0 <= j < i :: accessCount[j] == Cell(0, 0)
      {
        accessCount[i] := Cell(0, 0);
      }
      logTime := now;
      assert accessCount[..] == Fresh().cells;
    }

    method ClearOutdatedData(index: nat, slotIndex: nat)
      requires Shaped() && index == slotIndex % RESERVED_ENTRY
      modifies `counter, accessCount
      ensures AsRing() == Cleaned(old(AsRing()), slotIndex)
    {
      ghost var before := accessCount[..];
      var i, s, j := index, slotIndex as int, 0;
      while j < RESERVED_ENTRY
        invariant j <= RESERVED_ENTRY && s == slotIndex - j && i == (slotIndex - j) % RESERVED_ENTRY
        invariant forall k | 0 <= k < RESERVED_ENTRY ::
                    accessCount[k] == if Age(k, slotIndex) < j then CleanCell(before[k], k, slotIndex) else before[k]
        invariant counter - SumCounts(accessCount[..]) == old(counter) - SumCounts(before)
      {
        WalkStep(i, slotIndex, j);
        CleanOne(i, s);
        i, s, j := (i + RESERVED_ENTRY - 1) % RESERVED_ENTRY, s - 1, j + 1;
      }
      assert accessCount[..] == CleanCells(before, slotIndex);
    }

    /** One cell of the walk: put it on slot `s`, dropping the count of any other slot. */
    method CleanOne(i: nat, s: int)
      requires Shaped() && i < RESERVED_ENTRY
      modifies `counter, accessCount
      ensures accessCount[..] == old(accessCount[..])[i := if old(accessCount[i]).slot == s then old(accessCount[i]) else Cell(0, s)]
      ensures counter - SumCounts(accessCount[..]) == old(counter - SumCounts(accessCount[..]))
    {
      ghost var cells := accessCount[..];
      if accessCount[i].slot != s {
        SumUpdate(cells, i, Cell(0, s));
        accessCount[i] := accessCount[i].(slot := s);
        if accessCount[i].count > 0 {
          counter := counter - accessCount[i].count;
          accessCount[i] := accessCount[i].(count := 0);
        }
        assert accessCount[..] == cells[i := Cell(0, s)];
      }
    }

    /** The part of an attempt that touches the entry alone. */
    method CountAttempt(index: nat, slotIndex: nat)
      requires Shaped() && index == slotIndex % RESERVED_ENTRY
      modifies `counter, accessCount
      ensures AsRing() == Hit(old(AsRing()), slotIndex)
    {
      if accessCount[index].slot != slotIndex {
        ClearOutdatedData(index, slotIndex);
      }
      ghost var cells := accessCount[..];
      accessCount[index] := Cell(accessCount[index].count + 1, accessCount[index].slot);
      counter := counter + 1;
      assert accessCount[..] == cells[index := cells[index].(count := cells[index].count + 1)];
    }
  }
}
