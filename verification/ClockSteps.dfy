/** A clock that goes back: what the first attempt is told whose slot is before one its address was already
    counted or cleaned at, and exactly when that is still the truth. */
module ClockSteps {
  import opened AccessRing
  import opened RateTrace

  predicate Concerns(op: Op, ip: nat) {
    op.Sweep? || op.ip == ip
  }

  /** The slot at which the ring of `ip` was last counted in or cleaned; -1 for never. */
  function Touched(ops: seq<Op>, ip: nat): int {
    if ops == [] then -1
    else if Concerns(ops[|ops| - 1], ip) then ops[|ops| - 1].slot
    else Touched(ops[..|ops| - 1], ip)
  }

  /** The part of a run that the ring of `ip` sees. */
  function Relevant(ops: seq<Op>, ip: nat): seq<Op> {
    if ops == [] then []
    else Relevant(ops[..|ops| - 1], ip) + if Concerns(ops[|ops| - 1], ip) then [ops[|ops| - 1]] else []
  }

  lemma Snoc(ops: seq<Op>, op: Op)
    ensures Run(ops + [op]) == Step(Run(ops), op)
    ensures forall ip :: Touched(ops + [op], ip) == if Concerns(op, ip) then op.slot else Touched(ops, ip)
    ensures forall ip :: Relevant(ops + [op], ip) == Relevant(ops, ip) + if Concerns(op, ip) then [op] else []
  {
    assert (ops + [op])[..|ops|] == ops;
  }

  lemma StepAt(t: Table, u: Table, op: Op, ip: nat)
    requires Shaped(t) && Shaped(u) && RingOf(t, ip) == RingOf(u, ip) && (ip in t <==> ip in u)
    ensures RingOf(Step(t, op), ip) == RingOf(Step(u, op), ip) && (ip in Step(t, op) <==> ip in Step(u, op))
  {
  }

  lemma StepElsewhere(t: Table, op: Op, ip: nat)
    requires Shaped(t) && !Concerns(op, ip)
    ensures RingOf(Step(t, op), ip) == RingOf(t, ip) && (ip in Step(t, op) <==> ip in t)
  {
  }

  lemma {:induction false} RelevantIsEnough(ops: seq<Op>, ip: nat)
    ensures var own := Relevant(ops, ip);
            && (ip in Run(own) <==> ip in Run(ops)) && RingOf(Run(own), ip) == RingOf(Run(ops), ip)
            && Touched(own, ip) == Touched(ops, ip)
  {
    if ops != [] {
      hide RingOf, Step;
      var before, op := ops[..|ops| - 1], ops[|ops| - 1];
      RelevantIsEnough(before, ip);
      if Concerns(op, ip) {
        Snoc(Relevant(before, ip), op);
        StepAt(Run(Relevant(before, ip)), Run(before), op, ip);
      } else {
        StepElsewhere(Run(before), op, ip);
        assert Relevant(ops, ip) == Relevant(before, ip);
      }
    }
  }

  lemma {:induction false} RelevantCount(ops: seq<Op>, ip: nat, lo: int, hi: int)
    ensures Count(Relevant(ops, ip), ip, lo, hi) == Count(ops, ip, lo, hi)
  {
    if ops != [] {
      var before, op := ops[..|ops| - 1], ops[|ops| - 1];
      RelevantCount(before, ip, lo, hi);
      if Concerns(op, ip) {
        CountExtend(Relevant(before, ip), op, ip, lo, hi);
      } else {
        assert Relevant(ops, ip) == Relevant(before, ip);
      }
    }
  }

  /** In order, with no slot past `now`. */
  ghost predicate UpTo(ops: seq<Op>, now: int) {
    Monotone(ops) && forall i | 0 <= i < |ops| :: ops[i].slot <= now
  }

  lemma Shorter(ops: seq<Op>)
    requires Monotone(ops) && ops != []
    ensures UpTo(ops[..|ops| - 1], ops[|ops| - 1].slot)
  {
  }

  lemma Longer(ops: seq<Op>, op: Op)
    requires UpTo(ops, op.slot)
    ensures UpTo(ops + [op], op.slot)
  {
  }

  lemma Later(ops: seq<Op>, now: int, later: int)
    requires UpTo(ops, now) && now <= later
    ensures UpTo(ops, later) && Monotone(ops)
  {
  }

  lemma {:induction false} RelevantMonotone(ops: seq<Op>, ip: nat)
    requires Monotone(ops)
    ensures UpTo(Relevant(ops, ip), Touched(ops, ip)) && Touched(ops, ip) >= -1
    ensures ops != [] ==> Touched(ops, ip) <= ops[|ops| - 1].slot
  {
    if ops != [] {
      hide Monotone, UpTo;
      var before, op := ops[..|ops| - 1], ops[|ops| - 1];
      Shorter(ops);
      Later(before, op.slot, op.slot);
      RelevantMonotone(before, ip);
      TouchedBy(before, ip, op.slot);
      if Concerns(op, ip) {
        Later(Relevant(before, ip), Touched(before, ip), op.slot);
        Longer(Relevant(before, ip), op);
      } else {
        assert Relevant(ops, ip) == Relevant(before, ip);
      }
    }
  }

  lemma TouchedBy(ops: seq<Op>, ip: nat, now: nat)
    requires UpTo(ops, now)
    ensures Touched(ops, ip) <= now
  {
  }

  /** Every cell stands for the slot of the window ending at `slot` that is its own. */
  ghost predicate Current(r: Ring, slot: int) {
    |r.cells| == RESERVED_ENTRY && forall i | 0 <= i < RESERVED_ENTRY :: r.cells[i].slot == SlotOf(i, slot)
  }

  lemma CleanedCurrent(r: Ring, slot: nat)
    requires |r.cells| == RESERVED_ENTRY
    ensures Current(Cleaned(r, slot), slot)
  {
  }

  /** What is known of a ring last touched at `m`: it is current there, or was never counted past slot 0. */
  ghost predicate Known(r: Ring, m: int) {
    && |r.cells| == RESERVED_ENTRY
    && if m > 0 then Current(r, m) else forall i | 0 <= i < RESERVED_ENTRY :: r.cells[i].slot <= 0
  }

  lemma HitKnown(r: Ring, m: int, slot: nat)
    requires Known(r, m) && m <= slot
    ensures Known(Hit(r, slot), slot)
  {
    hide SlotOf;
    var i := slot % RESERVED_ENTRY;
    CleanedCurrent(r, slot);
    SlotOfRange(i, m);
    SlotOfUnique(slot, slot);
    if m > 0 && r.cells[i].slot == slot {
      assert m == slot;
    }
    forall k | 0 <= k < RESERVED_ENTRY ensures SlotOf(k, slot) <= slot {
      SlotOfRange(k, slot);
    }
  }

  lemma {:induction false} TouchedKnown(ops: seq<Op>, ip: nat)
    requires Monotone(ops)
    ensures Known(RingOf(Run(ops), ip), if ip in Run(ops) then Touched(ops, ip) else -1)
  {
    if ops != [] {
      var before, op := ops[..|ops| - 1], ops[|ops| - 1];
      assert Monotone(before) && forall i | 0 <= i < |before| :: before[i] == ops[i];
      TouchedKnown(before, ip);
      RelevantMonotone(before, ip);
      if !Concerns(op, ip) {
        StepElsewhere(Run(before), op, ip);
      } else if op.Attempt? {
        HitKnown(RingOf(Run(before), ip), if ip in Run(before) then Touched(before, ip) else -1, op.slot);
      } else if ip in Run(ops) {
        CleanedCurrent(Run(before)[ip], op.slot);
      }
    }
  }

  // ---------------------------------------------------------------- the first step back

  /** A current ring that is hit at an earlier slot of its own window counts on without cleaning. */
  lemma HitInWindow(r: Ring, ops: seq<Op>, ip: nat, m: nat, slot: nat)
    requires Tells(r, ops, ip, m) && Current(r, m) && m - RESERVED_ENTRY < slot <= m
    ensures Hit(r, slot).total == Count(ops, ip, m - RESERVED_ENTRY + 1, m) + 1
  {
    hide SlotOf;
    SlotOfUnique(slot, m);
    SlotOfUnique(m, m);
    CurrentTotal(r, ops, ip, m);
  }

  /** Hit at a slot before its whole window, it forgets everything. */
  lemma HitBeforeWindow(r: Ring, m: nat, slot: nat)
    requires Balanced(r) && Current(r, m) && slot <= m - RESERVED_ENTRY
    ensures Hit(r, slot).total == 1
  {
    hide SlotOf;
    var c := Cleaned(r, slot);
    forall i | 0 <= i < RESERVED_ENTRY ensures c.cells[i].count == 0 && r.cells[i].slot != slot {
      SlotOfRange(i, m);
      SlotOfRange(i, slot);
    }
    SumZero(c.cells);
  }

  /** What an attempt at `slot` is told after a run under a good clock. */
  function Told(ops: seq<Op>, ip: nat, slot: nat): int {
    var m := Touched(ops, ip);
    if slot >= m then Count(ops, ip, slot - RESERVED_ENTRY + 1, slot) + 1
    else if ip in Run(ops) && m - RESERVED_ENTRY < slot then Count(ops, ip, m - RESERVED_ENTRY + 1, m) + 1
    else 1
  }

  lemma AttemptRing(ops: seq<Op>, ip: nat, slot: nat)
    ensures ip in Run(ops + [Attempt(ip, slot)])
    ensures RingOf(Run(ops + [Attempt(ip, slot)]), ip) == Run(ops + [Attempt(ip, slot)])[ip] == Hit(RingOf(Run(ops), ip), slot)
    ensures ip !in Run(ops) ==> RingOf(Run(ops), ip) == Fresh()
  {
    Snoc(ops, Attempt(ip, slot));
  }

  lemma RingAtTouched(ops: seq<Op>, ip: nat)
    requires Monotone(ops) && ip in Run(ops) && Touched(ops, ip) > 0
    ensures var r, m := RingOf(Run(ops), ip), Touched(ops, ip);
            Current(r, m) && Tells(r, Relevant(ops, ip), ip, m) && Balanced(r)
  {
    TouchedKnown(ops, ip);
    RelevantIsEnough(ops, ip);
    RelevantMonotone(ops, ip);
    RunAgrees(Relevant(ops, ip), Touched(ops, ip));
    assert Tells(Run(Relevant(ops, ip))[ip], Relevant(ops, ip), ip, Touched(ops, ip));
  }

  lemma AnyNextAttempt(ops: seq<Op>, ip: nat, slot: nat)
    requires Monotone(ops)
    ensures RingOf(Run(ops + [Attempt(ip, slot)]), ip).total == Told(ops, ip, slot)
  {
    hide Hit, Fresh, Step, Count, Run, RingOf, Touched, Relevant, SlotOf, Current, Balanced, Tells;
    var own, m := Relevant(ops, ip), Touched(ops, ip);
    RelevantIsEnough(ops, ip);
    RelevantMonotone(ops, ip);
    AttemptRing(ops, ip, slot);
    AttemptRing(own, ip, slot);
    if slot >= m {
      CountExtend(own, Attempt(ip, slot), ip, slot - RESERVED_ENTRY + 1, slot);
      RelevantCount(ops, ip, slot - RESERVED_ENTRY + 1, slot);
      WindowRefinement(own, ip, slot);
    } else if ip in Run(ops) {
      RingAtTouched(ops, ip);
      if m - RESERVED_ENTRY < slot {
        HitInWindow(RingOf(Run(ops), ip), own, ip, m, slot);
        RelevantCount(ops, ip, m - RESERVED_ENTRY + 1, m);
      } else {
        HitBeforeWindow(RingOf(Run(ops), ip), m, slot);
      }
    } else {
      FreshTotal(slot);
    }
  }

  lemma FreshTotal(slot: nat)
    ensures Hit(Fresh(), slot).total == 1
  {
    SumZero(Fresh().cells);
    SumZero(Cleaned(Fresh(), slot).cells);
  }

  lemma {:induction false} CountSplit(ops: seq<Op>, ip: nat, lo: int, mid: int, hi: int)
    requires lo <= mid + 1 && mid <= hi
    ensures Count(ops, ip, lo, hi) == Count(ops, ip, lo, mid) + Count(ops, ip, mid + 1, hi)
  {
    if ops != [] { CountSplit(ops[..|ops| - 1], ip, lo, mid, hi); }
  }

  /** The first attempt after a run under a good clock is told the truth exactly when its slot is not before
      the one its address was last counted or cleaned at, or what the step back adds to the window counts
      as much as what it takes away. */
  lemma TruthExactly(ops: seq<Op>, ip: nat, slot: nat)
    requires Monotone(ops)
    ensures var run, m := ops + [Attempt(ip, slot)], Touched(ops, ip);
            RingOf(Run(run), ip).total == Count(run, ip, slot - RESERVED_ENTRY + 1, slot) <==>
            || slot >= m
            || (if ip in Run(ops) && m - RESERVED_ENTRY < slot
                then Count(ops, ip, slot + 1, m) == Count(ops, ip, slot - RESERVED_ENTRY + 1, m - RESERVED_ENTRY)
                else Count(ops, ip, slot - RESERVED_ENTRY + 1, slot) == 0)
  {
    hide Run, RingOf, Count, Touched;
    var m, lo := Touched(ops, ip), slot - RESERVED_ENTRY + 1;
    AnyNextAttempt(ops, ip, slot);
    CountExtend(ops, Attempt(ip, slot), ip, lo, slot);
    if slot < m < slot + RESERVED_ENTRY {
      CountSplit(ops, ip, lo, m - RESERVED_ENTRY, m);
      CountSplit(ops, ip, lo, slot, m);
    }
  }
}
