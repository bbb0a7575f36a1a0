/** The limiter against its own history: what the lazily cleaned rings must say about the attempts
    made so far, over every run of attempts and expiry passes. */
module RateTrace {
  import opened AccessRing

  datatype Op =
    | Attempt(ip: nat, slot: nat)  // find_and_increase
    | Sweep(slot: nat)             // an expiry pass that runs

  type Table = map<nat, Ring>

  ghost predicate Shaped(t: Table) {
    forall ip | ip in t :: |t[ip].cells| == RESERVED_ENTRY
  }

  function RingOf(t: Table, ip: nat): Ring {
    if ip in t then t[ip] else Fresh()
  }

  function Swept(t: Table, slot: nat): Table {
    map ip | ip in t && Cleaned(t[ip], slot).total != 0 :: Cleaned(t[ip], slot)
  }

  function Step(t: Table, op: Op): (t': Table)
    requires Shaped(t)
    ensures Shaped(t')
  {
    match op
    case Attempt(ip, slot) => t[ip := Hit(RingOf(t, ip), slot)]
    case Sweep(slot) => Swept(t, slot)
  }

  function Run(ops: seq<Op>): (t: Table)
    ensures Shaped(t)
  {
    if ops == [] then map[] else Step(Run(ops[..|ops| - 1]), ops[|ops| - 1])
  }

  /** The attempts of `ip` in `ops` with a slot in [lo, hi]. */
  function Count(ops: seq<Op>, ip: nat, lo: int, hi: int): (n: nat) {
    if ops == [] then 0
    else
      var op := ops[|ops| - 1];
      Count(ops[..|ops| - 1], ip, lo, hi) + if op.Attempt? && op.ip == ip && lo <= op.slot <= hi then 1 else 0
  }

  ghost predicate Monotone(ops: seq<Op>) {
    forall i, j | 0 <= i <= j < |ops| :: ops[i].slot <= ops[j].slot
  }

  /** The ring tells the truth about every slot it may still be asked about at `now` or later. */
  ghost predicate Tells(r: Ring, ops: seq<Op>, ip: nat, now: int) {
    && Balanced(r)
    && (forall i | 0 <= i < RESERVED_ENTRY :: r.cells[i].slot <= now)
    && (forall i | 0 <= i < RESERVED_ENTRY :: r.cells[i].count > 0 ==> r.cells[i].slot % RESERVED_ENTRY == i)
    && (forall i | 0 <= i < RESERVED_ENTRY ::
          r.cells[i].slot % RESERVED_ENTRY == i && r.cells[i].slot > now - RESERVED_ENTRY
          ==> r.cells[i].count == Count(ops, ip, r.cells[i].slot, r.cells[i].slot))
    && (forall s: int | now - RESERVED_ENTRY < s && Count(ops, ip, s, s) > 0 :: r.cells[s % RESERVED_ENTRY].slot == s)
    && (forall i, j | 0 <= i < RESERVED_ENTRY && 0 <= j < RESERVED_ENTRY ::
          r.cells[i].count > 0 ==> r.cells[j].slot - RESERVED_ENTRY < r.cells[i].slot)
  }

  ghost predicate Agrees(t: Table, ops: seq<Op>, now: int) {
    && Shaped(t)
    && (forall ip | ip in t :: Tells(t[ip], ops, ip, now))
    && (forall ip: nat, s: int | ip !in t && now - RESERVED_ENTRY < s :: Count(ops, ip, s, s) == 0)
  }
  
  lemma {:induction false} CountNoLater(ops: seq<Op>, ip: nat, lo: int, mid: int, hi: int)
    requires mid <= hi && forall i | 0 <= i < |ops| :: ops[i].slot <= mid
    ensures Count(ops, ip, lo, hi) == Count(ops, ip, lo, mid)
  {
    if ops != [] { CountNoLater(ops[..|ops| - 1], ip, lo, mid, hi); }
  }

  lemma {:induction false} CountWiden(ops: seq<Op>, ip: nat, lo': int, lo: int, hi: int, hi': int)
    requires lo' <= lo && hi <= hi'
    ensures Count(ops, ip, lo, hi) <= Count(ops, ip, lo', hi')
  {
    if ops != [] { CountWiden(ops[..|ops| - 1], ip, lo', lo, hi, hi'); }
  }

  lemma FreshTells(ops: seq<Op>, ip: nat, now: nat)
    requires forall s: int | now - RESERVED_ENTRY < s :: Count(ops, ip, s, s) == 0
    ensures Tells(Fresh(), ops, ip, now)
  {
    TotalIsTheSum(Fresh(), 0);
  }

  lemma CleanedCell(r: Ring, ops: seq<Op>, ip: nat, slot: nat, i: nat)
    requires Tells(r, ops, ip, slot) && i < RESERVED_ENTRY
    ensures Cleaned(r, slot).cells[i] == Cell(Count(ops, ip, SlotOf(i, slot), SlotOf(i, slot)), SlotOf(i, slot))
  {
    var s := SlotOf(i, slot);
    SlotOfRange(i, slot);
    assert Cleaned(r, slot).cells[i] == CleanCell(r.cells[i], i, slot);
    if Count(ops, ip, s, s) > 0 {
      assert r.cells[s % RESERVED_ENTRY].slot == s;
    }
  }

  lemma CleanedTells(r: Ring, ops: seq<Op>, ip: nat, slot: nat)
    requires Tells(r, ops, ip, slot)
    ensures Tells(Cleaned(r, slot), ops, ip, slot)
  {
    TotalIsTheSum(r, slot);
    var c := Cleaned(r, slot);
    forall i | 0 <= i < RESERVED_ENTRY
      ensures c.cells[i] == Cell(Count(ops, ip, SlotOf(i, slot), SlotOf(i, slot)), SlotOf(i, slot))
      ensures SlotOf(i, slot) % RESERVED_ENTRY == i && slot - RESERVED_ENTRY < SlotOf(i, slot) <= slot
    {
      CleanedCell(r, ops, ip, slot, i);
      SlotOfRange(i, slot);
    }
    forall s: int | slot - RESERVED_ENTRY < s && Count(ops, ip, s, s) > 0
      ensures c.cells[s % RESERVED_ENTRY].slot == s
    {
      assert r.cells[s % RESERVED_ENTRY].slot == s;
      SlotOfUnique(s, slot);
    }
  }

  /** The per-slot counts of the window ending at `slot`, laid out as the ring lays them out. */
  ghost function Profile(ops: seq<Op>, ip: nat, slot: int): (p: seq<Cell>)
    ensures |p| == RESERVED_ENTRY
  {
    seq(RESERVED_ENTRY, i => Cell(Count(ops, ip, SlotOf(i, slot), SlotOf(i, slot)), SlotOf(i, slot)))
  }

  lemma {:induction false} ProfileSum(ops: seq<Op>, ip: nat, slot: int)
    ensures SumCounts(Profile(ops, ip, slot)) == Count(ops, ip, slot - RESERVED_ENTRY + 1, slot)
  {
    if ops == [] {
      SumZero(Profile(ops, ip, slot));
    } else {
      var before, op := ops[..|ops| - 1], ops[|ops| - 1];
      ProfileSum(before, ip, slot);
      var p := Profile(before, ip, slot);
      if op.Attempt? && op.ip == ip && slot - RESERVED_ENTRY < op.slot <= slot {
        var i := op.slot % RESERVED_ENTRY;
        SlotOfUnique(op.slot, slot);
        SumUpdate(p, i, Cell(p[i].count + 1, p[i].slot));
        forall k | 0 <= k < RESERVED_ENTRY && k != i ensures SlotOf(k, slot) != op.slot {
          SlotOfRange(k, slot);
        }
        assert Profile(ops, ip, slot) == p[i := Cell(p[i].count + 1, p[i].slot)];
      } else {
        forall k | 0 <= k < RESERVED_ENTRY ensures Profile(ops, ip, slot)[k] == p[k] {
          SlotOfRange(k, slot);
        }
        assert Profile(ops, ip, slot) == p;
      }
    }
  }

  /** A ring that is current for `slot` totals exactly the attempts in the last twelve slots. */
  lemma CurrentTotal(r: Ring, ops: seq<Op>, ip: nat, slot: nat)
    requires Tells(r, ops, ip, slot) && r.cells[slot % RESERVED_ENTRY].slot == slot
    ensures r.total == Count(ops, ip, slot - RESERVED_ENTRY + 1, slot)
  {
    forall i | 0 <= i < RESERVED_ENTRY ensures r.cells[i].count == Profile(ops, ip, slot)[i].count {
      var s := SlotOf(i, slot);
      SlotOfRange(i, slot);
      if r.cells[i].count > 0 {
        SlotOfUnique(r.cells[i].slot, slot);
      }
      if Count(ops, ip, s, s) > 0 {
        assert r.cells[s % RESERVED_ENTRY].slot == s;
      }
    }
    SumSameCounts(r.cells, Profile(ops, ip, slot));
    ProfileSum(ops, ip, slot);
  }

  lemma CountExtend(ops: seq<Op>, op: Op, ip: nat, lo: int, hi: int)
    ensures Count(ops + [op], ip, lo, hi) ==
            Count(ops, ip, lo, hi) + if op.Attempt? && op.ip == ip && lo <= op.slot <= hi then 1 else 0
  {
    assert (ops + [op])[..|ops|] == ops;
  }

  lemma HitTells(r: Ring, ops: seq<Op>, ip: nat, slot: nat)
    requires Tells(r, ops, ip, slot)
    ensures Tells(Hit(r, slot), ops + [Attempt(ip, slot)], ip, slot)
    ensures Hit(r, slot).total == Count(ops + [Attempt(ip, slot)], ip, slot - RESERVED_ENTRY + 1, slot)
  {
    var index := slot % RESERVED_ENTRY;
    var c := r;
    if r.cells[index].slot != slot {
      c := Cleaned(r, slot);
      CleanedTells(r, ops, ip, slot);
      SlotOfUnique(slot, slot);
    }
    var h, ops' := Hit(r, slot), ops + [Attempt(ip, slot)];
    TotalIsTheSum(r, slot);
    forall s: int ensures Count(ops', ip, s, s) == Count(ops, ip, s, s) + if s == slot then 1 else 0 {
      CountExtend(ops, Attempt(ip, slot), ip, s, s);
    }
    assert Tells(h, ops', ip, slot);
    CurrentTotal(h, ops', ip, slot);
  }

  lemma OtherOpTells(r: Ring, ops: seq<Op>, op: Op, ip: nat, now: nat)
    requires Tells(r, ops, ip, now) && (op.Attempt? ==> op.ip != ip)
    ensures Tells(r, ops + [op], ip, now)
  {
    forall s: int ensures Count(ops + [op], ip, s, s) == Count(ops, ip, s, s) {
      CountExtend(ops, op, ip, s, s);
    }
  }

  lemma SweptAgrees(t: Table, ops: seq<Op>, slot: nat)
    requires Agrees(t, ops, slot)
    ensures Agrees(Swept(t, slot), ops + [Sweep(slot)], slot)
  {
    var t', ops' := Swept(t, slot), ops + [Sweep(slot)];
    forall ip | ip in t' ensures Tells(t'[ip], ops', ip, slot) {
      CleanedTells(t[ip], ops, ip, slot);
      OtherOpTells(Cleaned(t[ip], slot), ops, Sweep(slot), ip, slot);
    }
    forall ip: nat, s: int | ip !in t' && slot - RESERVED_ENTRY < s ensures Count(ops', ip, s, s) == 0 {
      CountExtend(ops, Sweep(slot), ip, s, s);
      if ip in t {
        CleanedTells(t[ip], ops, ip, slot);
        SumZero(Cleaned(t[ip], slot).cells);
      }
    }
  }

  lemma AttemptAgrees(t: Table, ops: seq<Op>, ip: nat, slot: nat)
    requires Agrees(t, ops, slot)
    ensures Agrees(Step(t, Attempt(ip, slot)), ops + [Attempt(ip, slot)], slot)
    ensures Step(t, Attempt(ip, slot))[ip].total == Count(ops + [Attempt(ip, slot)], ip, slot - RESERVED_ENTRY + 1, slot)
  {
    var op := Attempt(ip, slot);
    if ip !in t {
      FreshTells(ops, ip, slot);
    }
    HitTells(RingOf(t, ip), ops, ip, slot);
    forall other: nat | other in t && other != ip ensures Tells(t[other], ops + [op], other, slot) {
      OtherOpTells(t[other], ops, op, other, slot);
    }
    forall other: nat, s: int | other !in t && other != ip && slot - RESERVED_ENTRY < s
      ensures Count(ops + [op], other, s, s) == 0
    {
      CountExtend(ops, op, other, s, s);
    }
  }

  /** Every run under a clock that never goes back keeps the table in agreement with its history. */
  lemma {:induction false} RunAgrees(ops: seq<Op>, now: nat)
    requires Monotone(ops) && forall i | 0 <= i < |ops| :: ops[i].slot <= now
    ensures Agrees(Run(ops), ops, now)
  {
    if ops != [] {
      var before, op := ops[..|ops| - 1], ops[|ops| - 1];
      assert before + [op] == ops;
      RunAgrees(before, op.slot);
      match op {
        case Attempt(ip, slot) => AttemptAgrees(Run(before), before, ip, slot);
        case Sweep(slot) => SweptAgrees(Run(before), before, slot);
      }
    }
  }

  /** Window refinement: the counter an attempt sees is the number of attempts by that address in the
      last twelve slots, whatever expiries and re-creations came before. */
  lemma WindowRefinement(ops: seq<Op>, ip: nat, slot: nat)
    requires Monotone(ops + [Attempt(ip, slot)])
    ensures var run := ops + [Attempt(ip, slot)];
            ip in Run(run) && Run(run)[ip].total == Count(run, ip, slot - RESERVED_ENTRY + 1, slot)
  {
    var run := ops + [Attempt(ip, slot)];
    assert run[..|ops|] == ops && run[|ops|] == Attempt(ip, slot);
    assert forall i | 0 <= i < |ops| :: ops[i] == run[i];
    RunAgrees(ops, slot);
    AttemptAgrees(Run(ops), ops, ip, slot);
  }

  /** Sweep exactness: after a pass at `slot` the table holds exactly the addresses with an attempt in
      the last twelve slots. */
  lemma SweepExactness(ops: seq<Op>, slot: nat, ip: nat)
    requires Monotone(ops + [Sweep(slot)])
    ensures ip in Run(ops + [Sweep(slot)]) <==> Count(ops, ip, slot - RESERVED_ENTRY + 1, slot) > 0
  {
    var run := ops + [Sweep(slot)];
    assert run[..|ops|] == ops && run[|ops|] == Sweep(slot);
    assert forall i | 0 <= i < |ops| :: ops[i] == run[i];
    RunAgrees(ops, slot);
    SweptAgrees(Run(ops), ops, slot);
    var t := Run(ops);
    if ip in t {
      CleanedTells(t[ip], ops, ip, slot);
      SlotOfUnique(slot, slot);
      CurrentTotal(Cleaned(t[ip], slot), ops, ip, slot);
    } else {
      ProfileSum(ops, ip, slot);
      forall i | 0 <= i < RESERVED_ENTRY ensures Profile(ops, ip, slot)[i].count == 0 {
        SlotOfRange(i, slot);
      }
      SumZero(Profile(ops, ip, slot));
    }
  }

  /** The run without its expiry passes. */
  function Attempts(ops: seq<Op>): (attempts: seq<Op>)
    ensures forall op | op in attempts :: op in ops
  {
    if ops == [] then []
    else Attempts(ops[..|ops| - 1]) + if ops[|ops| - 1].Attempt? then [ops[|ops| - 1]] else []
  }

  lemma {:induction false} AttemptsCount(ops: seq<Op>, ip: nat, lo: int, hi: int)
    ensures Count(Attempts(ops), ip, lo, hi) == Count(ops, ip, lo, hi)
  {
    if ops != [] {
      var before, op := ops[..|ops| - 1], ops[|ops| - 1];
      AttemptsCount(before, ip, lo, hi);
      if op.Attempt? {
        CountExtend(Attempts(before), op, ip, lo, hi);
      } else {
        assert Attempts(ops) == Attempts(before);
      }
    }
  }

  /** Expiry passes are invisible: two runs of the same attempts, with passes put in or left out
      anywhere, give the next attempt the same counter. */
  lemma SweepsAreInvisible(a: seq<Op>, b: seq<Op>, ip: nat, slot: nat)
    requires Attempts(a) == Attempts(b)
    requires Monotone(a + [Attempt(ip, slot)]) && Monotone(b + [Attempt(ip, slot)])
    ensures RingOf(Run(a + [Attempt(ip, slot)]), ip).total == RingOf(Run(b + [Attempt(ip, slot)]), ip).total
  {
    var op, lo := Attempt(ip, slot), slot - RESERVED_ENTRY + 1;
    WindowRefinement(a, ip, slot);
    WindowRefinement(b, ip, slot);
    CountExtend(a, op, ip, lo, slot);
    CountExtend(b, op, ip, lo, slot);
    AttemptsCount(a, ip, lo, slot);
    AttemptsCount(b, ip, lo, slot);
  }

  /** With any clock at all the totals stay balanced. */
  lemma {:induction false} RunBalanced(ops: seq<Op>, ip: nat)
    ensures ip in Run(ops) ==> Balanced(Run(ops)[ip])
  {
    if ops == [] {
    } else {
      var before, op := ops[..|ops| - 1], ops[|ops| - 1];
      RunBalanced(before, ip);
      TotalIsTheSum(RingOf(Run(before), ip), op.slot);
    }
  }

  /** An attempt at slot 12 after one at slot 13 finds its cell already on slot 12, and cleans nothing. */
  lemma BackwardHit()
    ensures Hit(Hit(Fresh(), 13), 12).total == 2
  {
    hide SumCounts;
    assert Cleaned(Fresh(), 13).cells[0] == CleanCell(Cell(0, 0), 0, 13);
    assert SumCounts(Fresh().cells) == SumCounts(Cleaned(Fresh(), 13).cells) == 0 by {
      SumZero(Fresh().cells);
      SumZero(Cleaned(Fresh(), 13).cells);
    }
  }

  /** Why the clock must not go back: one slot of step back and the second attempt is told 2, although
      only one attempt lies in its window. */
  lemma BackwardClock()
    ensures var run := [Attempt(1, 13), Attempt(1, 12)];
            Run(run)[1].total == 2 && Count(run, 1, 1, 12) == 1
  {
    hide Hit, Fresh;
    BackwardHit();
    var first, second := Attempt(1, 13), Attempt(1, 12);
    assert [first][..0] == [] && [first, second][..1] == [first];
    assert Run([first]) == map[1 := Hit(Fresh(), 13)];
  }
}
