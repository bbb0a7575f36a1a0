/** The event loop's slot table: three parallel arrays, a high-water mark and a count. */
module EventTable {
  import opened Options

  const MAX_EVENTS: nat := 1024

  datatype Handler = Listener | ClientToServer | ServerToClient

  /** `arg` is the connection passed as `void *args`, by its allocation number. */
  datatype Slot = Slot(fd: int, handler: Handler, arg: Option<nat>)

  datatype Events = Events(slots: seq<Slot>, max: nat, num: int)

  predicate Shaped(e: Events) {
    |e.slots| == MAX_EVENTS && e.max <= MAX_EVENTS
  }

  function Occupied(slots: seq<Slot>, n: nat): (count: nat)
    requires n <= |slots|
    ensures count <= n
  {
    if n == 0 then 0 else Occupied(slots, n - 1) + if slots[n - 1].fd != -1 then 1 else 0
  }

  predicate Live(e: Events, i: int)
    requires Shaped(e)
  {
    0 <= i < e.max && e.slots[i].fd != -1
  }

  ghost predicate WellFormed(e: Events) {
    && Shaped(e)
    && e.num == Occupied(e.slots, e.max)
    && (e.max > 0 ==> e.slots[e.max - 1].fd != -1)
    && (forall i | 0 <= i < e.max :: e.slots[i].fd >= -1)
    && (forall i, j | 0 <= i < j < e.max && e.slots[i].fd != -1 :: e.slots[i].fd != e.slots[j].fd)
  }

  /** The lowest free slot below `max`, or `max`. */
  function FirstFree(slots: seq<Slot>, max: nat, from: nat): (i: nat)
    requires from <= max <= |slots|
    ensures from <= i <= max
    ensures forall j | from <= j < i :: slots[j].fd != -1
    ensures i < max ==> slots[i].fd == -1
    decreases max - from
  {
    if from == max || slots[from].fd == -1 then from else FirstFree(slots, max, from + 1)
  }

  predicate Full(e: Events)
    requires Shaped(e)
  {
    FirstFree(e.slots, e.max, 0) == MAX_EVENTS
  }

  /** The table with its next slot taken, before anything is written to it. */
  function Taken(e: Events): Events
    requires Shaped(e)
  {
    var i := FirstFree(e.slots, e.max, 0);
    Events(e.slots, if i == e.max then i + 1 else e.max, e.num + 1)
  }

  /** ev_add_event: the new table and the handle, -2 when full, -1 when the kernel refuses. */
  function Added(e: Events, s: Slot, accepted: bool): (r: (Events, int))
    requires Shaped(e)
    ensures Shaped(r.0)
  {
    var i := FirstFree(e.slots, e.max, 0);
    if Full(e) then (e, -2)
    else if !accepted then (Taken(e), -1)
    else (Taken(e).(slots := e.slots[i := s]), i as int)
  }

  function Trim(slots: seq<Slot>, max: nat): (m: nat)
    requires max <= |slots|
    ensures m <= max && (m > 0 ==> slots[m - 1].fd >= 0)
    ensures forall i | m <= i < max :: slots[i].fd < 0
  {
    if max > 0 && slots[max - 1].fd < 0 then Trim(slots, max - 1) else max
  }

  /** ev_remove_event, with or without a live handle. */
  function Removed(e: Events, index: int): (e': Events)
    requires Shaped(e)
    ensures Shaped(e')
  {
    if 0 <= index < e.max then
      var slots := e.slots[index := e.slots[index].(fd := -1)];
      Events(slots, Trim(slots, e.max), e.num - 1)
    else e
  }

  /** The lowest slot that carries `fd`. */
  function Find(slots: seq<Slot>, max: nat, fd: int, from: nat): (hit: Option<nat>)
    requires from <= max <= |slots|
    ensures hit.Some? ==> from <= hit.value < max && slots[hit.value].fd == fd
    ensures hit.None? ==> forall i | from <= i < max :: slots[i].fd != fd
    decreases max - from
  {
    if from == max then None else if slots[from].fd == fd then Some(from) else Find(slots, max, fd, from + 1)
  }

  lemma {:induction false} OccupiedUpdate(slots: seq<Slot>, n: nat, i: nat, s: Slot)
    requires i < |slots| && n <= |slots|
    ensures Occupied(slots[i := s], n) == Occupied(slots, n) +
            if i < n then (if s.fd != -1 then 1 else 0) - (if slots[i].fd != -1 then 1 else 0) else 0
  {
    if n > 0 { OccupiedUpdate(slots, n - 1, i, s); }
  }

  lemma {:induction false} OccupiedFree(slots: seq<Slot>, m: nat, n: nat)
    requires m <= n <= |slots| && forall i | m <= i < n :: slots[i].fd == -1
    ensures Occupied(slots, n) == Occupied(slots, m)
  {
    if m < n { OccupiedFree(slots, m, n - 1); }
  }

  /** A successful add takes the lowest free slot and disturbs nothing; it is refused only by a table
      with all its slots live. */
  lemma AddKeeps(e: Events, s: Slot)
    requires WellFormed(e) && s.fd >= 0 && forall i | 0 <= i < e.max :: e.slots[i].fd != s.fd
    ensures var (e', h) := Added(e, s, true);
            && WellFormed(e')
            && (h == -2 <==> e.num == MAX_EVENTS) && (h == -2 ==> e' == e)
            && (h != -2 ==>
                  && 0 <= h < MAX_EVENTS && !Live(e, h) && Live(e', h) && e'.slots[h] == s && e'.num == e.num + 1
                  && (forall j | 0 <= j < h :: Live(e, j))
                  && (forall j: int | j != h :: Live(e', j) <==> Live(e, j))
                  && (forall j | 0 <= j < MAX_EVENTS && j != h :: e'.slots[j] == e.slots[j]))
  {
    var i := FirstFree(e.slots, e.max, 0);
    var max' := if i == e.max then i + 1 else e.max;
    FullExactly(e);
    if !Full(e) {
      OccupiedUpdate(e.slots, max', i, s);
    }
  }

  lemma FullExactly(e: Events)
    requires WellFormed(e)
    ensures Full(e) <==> e.num == MAX_EVENTS
  {
    var i := FirstFree(e.slots, e.max, 0);
    if Full(e) {
      AllLive(e.slots, MAX_EVENTS);
    } else if i < e.max {
      SomeFree(e.slots, e.max, i);
    }
  }

  lemma {:induction false} AllLive(slots: seq<Slot>, n: nat)
    requires n <= |slots| && forall i | 0 <= i < n :: slots[i].fd != -1
    ensures Occupied(slots, n) == n
  {
    if n > 0 { AllLive(slots, n - 1); }
  }

  lemma {:induction false} SomeFree(slots: seq<Slot>, n: nat, i: nat)
    requires i < n <= |slots| && slots[i].fd == -1
    ensures Occupied(slots, n) < n
  {
    if i < n - 1 { SomeFree(slots, n - 1, i); }
  }

  /** Removing a live handle frees that slot alone; trimming never cuts off a live one. */
  lemma RemoveKeeps(e: Events, index: int)
    requires WellFormed(e) && Live(e, index)
    ensures var e' := Removed(e, index);
            && WellFormed(e') && e'.num == e.num - 1 && !Live(e', index)
            && (forall j: int | j != index :: Live(e', j) <==> Live(e, j))
            && (forall j | 0 <= j < MAX_EVENTS && j != index :: e'.slots[j] == e.slots[j])
  {
    var slots := e.slots[index := e.slots[index].(fd := -1)];
    OccupiedUpdate(e.slots, e.max, index, e.slots[index].(fd := -1));
    OccupiedFree(slots, Trim(slots, e.max), e.max);
  }

  /** The count survives a removal exactly when the slot was live: a second removal loses one. */
  lemma RemoveExact(e: Events, index: int)
    requires WellFormed(e) && 0 <= index < e.max
    ensures var e' := Removed(e, index);
            Shaped(e') && (e'.num == Occupied(e'.slots, e'.max) <==> Live(e, index))
  {
    var slots := e.slots[index := e.slots[index].(fd := -1)];
    OccupiedUpdate(e.slots, e.max, index, e.slots[index].(fd := -1));
    OccupiedFree(slots, Trim(slots, e.max), e.max);
  }

  /** An add the kernel refuses raises the count all the same, unless the table was full. */
  lemma RefusedAddExact(e: Events, s: Slot)
    requires WellFormed(e)
    ensures var (e', h) := Added(e, s, false);
            Shaped(e') && (e'.num == e.num <==> Full(e)) && h == (if Full(e) then -2 else -1)
            && forall i: int | 0 <= i < e.max :: Live(e', i) <==> Live(e, i)
  {
  }

  /** The table stays well formed exactly when it was full, or grew onto a slot whose stale descriptor, never
      cleared, passes for a registered one. */
  lemma RefusedAddKeeps(e: Events, s: Slot)
    requires WellFormed(e)
    ensures var (e', h) := Added(e, s, false);
            Shaped(e') &&
            (WellFormed(e') <==>
             || Full(e)
             || (FirstFree(e.slots, e.max, 0) == e.max && e.slots[e.max].fd >= 0 && forall i | 0 <= i < e.max :: e.slots[i].fd != e.slots[e.max].fd))
            && (e'.num == Occupied(e'.slots, e'.max) <==> Full(e) || (FirstFree(e.slots, e.max, 0) == e.max && e.slots[e.max].fd != -1))
  {
    FullExactly(e);
    var (e', h) := Added(e, s, false);
    if FirstFree(e.slots, e.max, 0) < e.max {
      assert e'.slots == e.slots && e'.max == e.max;
    }
  }

  datatype TableOp = Add(slot: Slot) | Remove(index: int)

  function Perform(e: Events, op: TableOp): (e': Events)
    requires Shaped(e)
    ensures Shaped(e')
  {
    match op
    case Add(s) => Added(e, s, true).0
    case Remove(index) => Removed(e, index)
  }

  function Performed(e: Events, ops: seq<TableOp>): (e': Events)
    requires Shaped(e)
    ensures Shaped(e')
  {
    if ops == [] then e else Perform(Performed(e, ops[..|ops| - 1]), ops[|ops| - 1])
  }

  /** Every add brings a descriptor that is not in the table, every removal names a live handle. */
  ghost predicate ProperOps(e: Events, ops: seq<TableOp>)
    requires Shaped(e)
  {
    ops == [] ||
    (var before := Performed(e, ops[..|ops| - 1]);
     && ProperOps(e, ops[..|ops| - 1])
     && match ops[|ops| - 1]
        case Add(s) => s.fd >= 0 && forall i | 0 <= i < before.max :: before.slots[i].fd != s.fd
        case Remove(index) => Live(before, index))
  }

  lemma {:induction false} EveryRunKeeps(e: Events, ops: seq<TableOp>)
    requires WellFormed(e) && ProperOps(e, ops)
    ensures WellFormed(Performed(e, ops))
  {
    if ops != [] {
      EveryRunKeeps(e, ops[..|ops| - 1]);
      match ops[|ops| - 1] {
        case Add(s) => AddKeeps(Performed(e, ops[..|ops| - 1]), s);
        case Remove(index) => RemoveKeeps(Performed(e, ops[..|ops| - 1]), index);
      }
    }
  }

  const EMPTY := Events(Unused(MAX_EVENTS), 0, 0)

  function Unused(n: nat): (slots: seq<Slot>)
    ensures |slots| == n && forall i | 0 <= i < n :: slots[i] == Slot(0, Listener, None)
  {
    if n == 0 then [] else Unused(n - 1) + [Slot(0, Listener, None)]
  }

  class EventLoop {
    const fds: array<int>
    const handlers: array<Handler>
    const args: array<Option<nat>>
    var maxEvents: nat
    var numOfEvents: int

    ghost predicate Valid()
      reads `maxEvents
    {
      Sized() && maxEvents <= MAX_EVENTS
    }

    ghost function AsEvents(): (e: Events)
      requires Valid()
      reads this, fds, handlers, args
      ensures Shaped(e)
    {
      Events(AsSlots(), maxEvents, numOfEvents)
    }

    ghost predicate Sized() {
      fds.Length == handlers.Length == args.Length == MAX_EVENTS
    }

    ghost function AsSlots(): (slots: seq<Slot>)
      requires Sized()
      reads fds, handlers, args
      ensures |slots| == MAX_EVENTS && forall i | 0 <= i < MAX_EVENTS :: slots[i] == Slot(fds[i], handlers[i], args[i])
    {
      seq(MAX_EVENTS, i requires 0 <= i < MAX_EVENTS reads fds, handlers, args => Slot(fds[i], handlers[i], args[i]))
    }

    constructor ()
      ensures Valid() && AsEvents() == EMPTY && fresh(fds) && fresh(handlers) && fresh(args)
    {
      fds := new int[MAX_EVENTS](_ => 0);
      handlers := new Handler[MAX_EVENTS](_ => Listener);
      args := new Option<nat>[MAX_EVENTS](_ => None);
      maxEvents, numOfEvents := 0, 0;
    }

    method FindFirstFree() returns (index: int)
      requires Valid()
      modifies `maxEvents, `numOfEvents
      ensures Valid()
      ensures if Full(old(AsEvents())) then index == -1 && AsEvents() == old(AsEvents())
              else index == FirstFree(old(AsEvents()).slots, old(maxEvents), 0) && AsEvents() == Taken(old(AsEvents()))
    {
      ghost var e := AsEvents();
      var i := 0;
      while i < maxEvents
        invariant 0 <= i <= maxEvents && maxEvents == old(maxEvents) && numOfEvents == old(numOfEvents)
        invariant FirstFree(e.slots, e.max, 0) == FirstFree(e.slots, e.max, i)
      {
        assert e.slots[i].fd == fds[i];
        if fds[i] == -1 {
          numOfEvents := numOfEvents + 1;
          return i;
        }
        i := i + 1;
      }
      if maxEvents < MAX_EVENTS {
        maxEvents := maxEvents + 1;
        numOfEvents := numOfEvents + 1;
        return i;
      }
      return -1;
    }

    method RemoveEvent(index: int) returns (removed: bool)
      requires Valid()
      modifies this, fds
      ensures Valid() && removed == (0 <= index < old(maxEvents))
      ensures AsEvents() == Removed(old(AsEvents()), index)
    {
      if index >= 0 && index < maxEvents {
        ghost var slots := AsSlots();
        fds[index] := -1;
        numOfEvents := numOfEvents - 1;
        assert AsSlots() == slots[index := slots[index].(fd := -1)];
        TrimEnd();
        return true;
      }
      return false;
    }

    /** Lowers the high-water mark past free slots. */
    method TrimEnd()
      requires Valid()
      modifies `maxEvents
      ensures Valid() && maxEvents == Trim(AsSlots(), old(maxEvents))
    {
      while maxEvents > 0 && fds[maxEvents - 1] < 0
        invariant Valid() && maxEvents <= old(maxEvents)
        invariant Trim(AsSlots(), maxEvents) == Trim(AsSlots(), old(maxEvents))
      {
        maxEvents := maxEvents - 1;
      }
    }

    method AddEvent(fd: int, handler: Handler, arg: Option<nat>, accepted: bool) returns (handle: int)
      requires Valid()
      modifies this, fds, handlers, args
      ensures Valid()
      ensures (AsEvents(), handle) == Added(old(AsEvents()), Slot(fd, handler, arg), accepted)
    {
      ghost var e := AsEvents();
      var index := FindFirstFree();
      if index >= 0 {
        if !accepted {
          return -1;
        }
        fds[index] := fd;
        handlers[index] := handler;
        args[index] := arg;
        assert AsEvents().slots == e.slots[index := Slot(fd, handler, arg)];
        return index;
      } else {
        return -2;
      }
    }

    /** The search of ev_looping: the slot of the first ready descriptor that is registered, if any. */
    method Dispatch(ready: seq<int>) returns (hit: Option<nat>)
      requires Valid()
      ensures hit.None? ==> forall n | 0 <= n < |ready| :: Find(AsEvents().slots, maxEvents, ready[n], 0).None?
      ensures hit.Some? ==> exists n | 0 <= n < |ready| ::
                              && Find(AsEvents().slots, maxEvents, ready[n], 0) == hit
                              && forall m | 0 <= m < n :: Find(AsEvents().slots, maxEvents, ready[m], 0).None?
    {
      var n := 0;
      while n < |ready|
        invariant 0 <= n <= |ready|
        invariant forall m | 0 <= m < n :: Find(AsEvents().slots, maxEvents, ready[m], 0).None?
      {
        var i := 0;
        while i < maxEvents
          invariant 0 <= i <= maxEvents
          invariant Find(AsEvents().slots, maxEvents, ready[n], 0) == Find(AsEvents().slots, maxEvents, ready[n], i)
        {
          assert AsEvents().slots[i].fd == fds[i];
          if ready[n] == fds[i] {
            return Some(i);
          }
          i := i + 1;
        }
        n := n + 1;
      }
      return None;
    }

    method Count() returns (n: int)
      ensures n == numOfEvents
    {
      n := numOfEvents;
    }
  }
}
