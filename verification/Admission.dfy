/** The admission rule of an accepted connection, and the rate bound it gives over whole runs. */
module Admission {
  import opened Options
  import opened AccessRing
  import opened RateTrace
  import opened BlacklistTable
  import opened EntryChains

  datatype Config = Config(threshold: int, persistThreshold: int, defaultServer: int, onFailedChannel: int, maxPersistentTime: int)

  /** One accepted socket: its peer and slot, and what the database and the clock answer about it. */
  datatype Request = Request(
    slot: nat,
    ipv4: Option<nat>,         // the IPv4 address of an IPv4-mapped peer
    inDatabase: Option<int>,   // check_available: the channel of a prepared request
    whitelisted: bool,
    blacklisted: bool,         // connection_blacklisted > 0
    failing: bool,             // fail_guessing
    vip: bool,                 // check_vip, asked at the threshold
    vipLater: bool,            // check_vip, asked again for a long-lived record
    now: int)                  // the clock, in microseconds

  datatype Decision = Decision(channel: int, accessCounter: int, blacklisted: bool, autoBlacklisted: bool, reported: bool, noticed: bool)

  /** Whole seconds, cut towards zero. */
  function Seconds(microseconds: int): int {
    if microseconds >= 0 then microseconds / 1000000 else -(-microseconds / 1000000)
  }

  const NOTICE_PERIOD := 1800 * 1000000

  /** The log time of the record a request finds or makes. */
  function LogTime(t: Table, logs: map<nat, int>, ip: nat, now: int): int {
    if ip in t && ip in logs then logs[ip] else now
  }

  /** Only whitelisted IPv4 peers without a prepared request are counted. */
  predicate Counted(req: Request) {
    req.inDatabase.None? && req.whitelisted && req.ipv4.Some?
  }

  /** The back-up channel is tried on even counts among the last seven below the threshold. */
  predicate TriesFallback(cfg: Config, req: Request, counter: int) {
    cfg.onFailedChannel != cfg.defaultServer && cfg.threshold - 7 < counter <= cfg.threshold && counter % 2 == 0 && req.failing
  }

  /** Where a request goes: -1 is refusal. */
  function Channel(cfg: Config, req: Request, counter: int): int {
    if req.inDatabase.Some? then req.inDatabase.value
    else if !req.whitelisted || req.blacklisted then -1
    else if req.ipv4.None? then cfg.defaultServer
    else if counter > cfg.threshold && !req.vip then -1
    else if TriesFallback(cfg, req, counter) then cfg.onFailedChannel
    else cfg.defaultServer
  }

  /** Whether the address is added to the blacklist database. */
  predicate Reported(cfg: Config, req: Request, counter: int, logTime: int) {
    && Counted(req) && !req.blacklisted
    && if counter > cfg.threshold && !req.vip then counter > cfg.persistThreshold
       else Channel(cfg, req, counter) >= 0 && Seconds(req.now - logTime) > cfg.maxPersistentTime && !req.vipLater
  }

  /** Whether a refused blacklisted peer is noted, at most every half hour. */
  predicate Noticed(req: Request, logTime: int) {
    Counted(req) && req.blacklisted && req.now - logTime > NOTICE_PERIOD
  }

  /** The server used for an admitted channel. */
  function ServerOf(channel: int, servers: nat): (s: int)
    ensures channel >= 0 && servers > 0 ==> 0 <= s < servers && (channel < servers ==> s == channel)
    ensures channel >= servers ==> s == 0
  {
    if channel < servers then channel else 0
  }

  method AcceptingRequest(table: Blacklist, cfg: Config, req: Request) returns (d: Decision)
    requires table.Valid() && table.Logged()
    modifies table, table.heads, table.entries, CellsOf(table.entries)
    ensures table.Valid() && table.Logged() && table.recentIndex == old(table.recentIndex)
    ensures fresh(table.entries - old(table.entries)) && fresh(CellsOf(table.entries) - old(CellsOf(table.entries)))
    ensures table.model == if Counted(req) then Step(old(table.model), Attempt(req.ipv4.value, req.slot)) else old(table.model)
    ensures d.accessCounter == if Counted(req) then table.model[req.ipv4.value].total else 0
    ensures d.channel == Channel(cfg, req, d.accessCounter)
    ensures d.autoBlacklisted <==> Counted(req) && !req.blacklisted && d.accessCounter > cfg.threshold && !req.vip
    ensures d.blacklisted <==> req.inDatabase.None? && req.whitelisted && req.blacklisted
    ensures !Counted(req) ==> table.logs == old(table.logs) && !d.reported && !d.noticed
    ensures Counted(req) ==>
              var logTime := LogTime(old(table.model), old(table.logs), req.ipv4.value, req.now);
              && (d.reported <==> Reported(cfg, req, d.accessCounter, logTime))
              && (d.noticed <==> Noticed(req, logTime))
              && table.logs == old(table.logs)[req.ipv4.value := if d.noticed then req.now else logTime]
  {
    hide Blacklist.Valid, Blacklist.Logged, Step;
    var channel, counter, blacklisted, autoBlacklisted, reported, noticed := -1, 0, false, false, false, false;
    if req.inDatabase.Some? {
      channel := req.inDatabase.value;
    } else if req.whitelisted {
      channel := cfg.defaultServer;
      if req.blacklisted {
        blacklisted := true;
        channel := -1;
      }
      if req.ipv4.Some? {
        table.LogsOf();
        var entry := table.FindAndIncrease(req.ipv4.value, req.slot, req.now);
        counter := entry.counter;
        if !blacklisted {
          if cfg.onFailedChannel != cfg.defaultServer && counter > cfg.threshold - 7 && counter <= cfg.threshold &&
             counter % 2 == 0 && req.failing {
            channel := cfg.onFailedChannel;
          }
          if counter > cfg.threshold {
            if !req.vip {
              if counter > cfg.persistThreshold {
                reported := true;
              }
              autoBlacklisted := true;
              channel := -1;
            }
          }
          if !autoBlacklisted && channel >= 0 {
            var elapsed := Seconds(req.now - entry.logTime);
            if elapsed > cfg.maxPersistentTime {
              if !req.vipLater {
                reported := true;
              }
            }
          }
        } else if req.now - entry.logTime > NOTICE_PERIOD {
          noticed := true;
          table.NoteTime(entry, req.now);
        }
      }
    }
    d := Decision(channel, counter, blacklisted, autoBlacklisted, reported, noticed);
  }

  /** What happens to the limiter in a run: requests, and expiry passes that run. */
  datatype Event = Arrives(req: Request, cfg: Config) | Expires(slot: nat)

  /** The limiter's own history within a run. */
  function Ops(run: seq<Event>): (ops: seq<Op>) {
    if run == [] then []
    else
      var before, e := Ops(run[..|run| - 1]), run[|run| - 1];
      match e
      case Expires(slot) => before + [Sweep(slot)]
      case Arrives(req, _) => if Counted(req) then before + [Attempt(req.ipv4.value, req.slot)] else before
  }

  function SlotOfEvent(e: Event): nat {
    if e.Expires? then e.slot else e.req.slot
  }

  ghost predicate Timely(run: seq<Event>) {
    forall i, j | 0 <= i <= j < |run| :: SlotOfEvent(run[i]) <= SlotOfEvent(run[j])
  }

  /** The counter the last event of a run is told. */
  function CounterAt(run: seq<Event>, ip: nat): int {
    RingOf(Run(Ops(run)), ip).total
  }

  /** The last event is an admitted attempt of `ip` on the counted path. */
  predicate AdmitsLast(run: seq<Event>, ip: nat)
    requires run != []
  {
    var e := run[|run| - 1];
    && e.Arrives? && Counted(e.req) && e.req.ipv4.value == ip
    && Channel(e.cfg, e.req, CounterAt(run, ip)) >= 0
  }

  /** How many counted attempts of `ip` with a slot in [from, from + 11] a run admits. */
  function Admitted(run: seq<Event>, ip: nat, from: int): (n: nat) {
    if run == [] then 0
    else
      Admitted(run[..|run| - 1], ip, from) +
      if AdmitsLast(run, ip) && from <= run[|run| - 1].req.slot < from + RESERVED_ENTRY then 1 else 0
  }

  lemma {:induction false} OpsTimely(run: seq<Event>, now: int)
    requires Timely(run) && forall i | 0 <= i < |run| :: SlotOfEvent(run[i]) <= now
    ensures Monotone(Ops(run)) && forall i | 0 <= i < |Ops(run)| :: Ops(run)[i].slot <= now
  {
    if run != [] {
      OpsTimely(run[..|run| - 1], SlotOfEvent(run[|run| - 1]));
    }
  }

  /** A counted attempt is told exactly how many attempts its address made in the last twelve slots. */
  lemma CounterIsTheWindow(run: seq<Event>, ip: nat)
    requires run != [] && Timely(run)
    requires var e := run[|run| - 1]; e.Arrives? && Counted(e.req) && e.req.ipv4.value == ip
    ensures var slot := run[|run| - 1].req.slot;
            CounterAt(run, ip) == Count(Ops(run), ip, slot - RESERVED_ENTRY + 1, slot)
  {
    var before, slot := run[..|run| - 1], run[|run| - 1].req.slot;
    OpsTimely(run, slot);
    WindowRefinement(Ops(before), ip, slot);
  }

  /** Each whitelisted, not blacklisted, not VIP attempt is admitted exactly when its window count is
      within the threshold and the channel chosen for it is one. */
  lemma AdmittedExactlyWithin(run: seq<Event>, ip: nat)
    requires run != [] && Timely(run)
    requires var e := run[|run| - 1];
             e.Arrives? && Counted(e.req) && e.req.ipv4.value == ip && !e.req.blacklisted && !e.req.vip
    ensures var e := run[|run| - 1];
            var count := Count(Ops(run), ip, e.req.slot - RESERVED_ENTRY + 1, e.req.slot);
            AdmitsLast(run, ip) <==>
            count <= e.cfg.threshold && (if TriesFallback(e.cfg, e.req, count) then e.cfg.onFailedChannel else e.cfg.defaultServer) >= 0
  {
    CounterIsTheWindow(run, ip);
  }

  lemma NoCount(ip: nat, lo: int, hi: int)
    ensures Count([], ip, lo, hi) == 0
  {
  }

  lemma {:induction false} AdmittedWithinAttempts(run: seq<Event>, ip: nat, from: int)
    ensures Admitted(run, ip, from) <= Count(Ops(run), ip, from, from + RESERVED_ENTRY - 1)
  {
    hide Channel, CounterAt, Count;
    if run == [] {
      NoCount(ip, from, from + RESERVED_ENTRY - 1);
    } else {
      var before, e := run[..|run| - 1], run[|run| - 1];
      AdmittedWithinAttempts(before, ip, from);
      if e.Expires? {
        CountExtend(Ops(before), Sweep(e.slot), ip, from, from + RESERVED_ENTRY - 1);
      } else if Counted(e.req) {
        CountExtend(Ops(before), Attempt(e.req.ipv4.value, e.req.slot), ip, from, from + RESERVED_ENTRY - 1);
      }
    }
  }

  /** An admission sees every earlier admission of the window in its own counter. */
  lemma AdmissionSeesTheWindow(run: seq<Event>, ip: nat, from: int)
    requires run != [] && Timely(run) && AdmitsLast(run, ip)
    requires var e := run[|run| - 1]; from <= e.req.slot < from + RESERVED_ENTRY && !e.req.vip
    ensures Admitted(run, ip, from) <= run[|run| - 1].cfg.threshold
  {
    hide Admitted, Run;
    var slot, ops := run[|run| - 1].req.slot, Ops(run);
    CounterIsTheWindow(run, ip);
    AdmittedWithinAttempts(run, ip, from);
    OpsTimely(run, slot);
    CountNoLater(ops, ip, from, slot, from + RESERVED_ENTRY - 1);
    CountWiden(ops, ip, slot - RESERVED_ENTRY + 1, from, slot, slot);
  }

  /** Rate bound: an address that is never VIP gets at most `threshold` counted attempts through in any
      twelve consecutive slots of any run, whatever expiry passes run in between. */
  lemma {:induction false} RateBound(run: seq<Event>, ip: nat, from: int, threshold: int)
    requires Timely(run)
    requires NeverVip(run, ip, threshold)
    ensures Admitted(run, ip, from) <= if threshold < 0 then 0 else threshold
  {
    if run != [] {
      RateBound(run[..|run| - 1], ip, from, threshold);
      assert run[|run| - 1] in run;
      if AdmitsLast(run, ip) && from <= run[|run| - 1].req.slot < from + RESERVED_ENTRY {
        AdmissionSeesTheWindow(run, ip, from);
      }
    }
  }

  /** The attempts of two histories that agree but for expiry passes are counted alike. */
  lemma SameAttemptsSameCount(a: seq<Op>, b: seq<Op>, ip: nat, lo: int, hi: int)
    requires Attempts(a) == Attempts(b)
    ensures Count(a, ip, lo, hi) == Count(b, ip, lo, hi)
  {
    AttemptsCount(a, ip, lo, hi);
    AttemptsCount(b, ip, lo, hi);
  }

  lemma AttemptsExtend(ops: seq<Op>, op: Op)
    ensures Attempts(ops + [op]) == Attempts(ops) + if op.Attempt? then [op] else []
  {
    assert (ops + [op])[..|ops|] == ops;
  }

  lemma RunExtend(ops: seq<Op>, op: Op)
    ensures Run(ops + [op]) == Step(Run(ops), op)
  {
    assert (ops + [op])[..|ops|] == ops;
  }

  lemma MonotoneExtend(ops: seq<Op>, op: Op)
    requires Monotone(ops) && forall i | 0 <= i < |ops| :: ops[i].slot <= op.slot
    ensures Monotone(ops + [op]) && forall i | 0 <= i < |ops + [op]| :: (ops + [op])[i].slot <= op.slot
  {
  }

  /** The count the whole history gives for a request. */
  function TrueCount(run: seq<Event>, req: Request): nat {
    if Counted(req) then Count(Ops(run), req.ipv4.value, req.slot - RESERVED_ENTRY + 1, req.slot) else 0
  }

  // ---------------------------------------------------------------- what the table has seen

  /** The slot of the last wake-up, modulo the ring; -1 before the first. */
  function Recent(run: seq<Event>): int {
    if run == [] then -1
    else if run[|run| - 1].Expires? then run[|run| - 1].slot % RESERVED_ENTRY
    else Recent(run[..|run| - 1])
  }

  /** The attempts, and the passes that really run. */
  function Effective(run: seq<Event>): seq<Op> {
    if run == [] then []
    else
      var before, e := run[..|run| - 1], run[|run| - 1];
      match e
      case Expires(slot) => if Recent(before) == slot % RESERVED_ENTRY then Effective(before) else Effective(before) + [Sweep(slot)]
      case Arrives(req, _) => if Counted(req) then Effective(before) + [Attempt(req.ipv4.value, req.slot)] else Effective(before)
  }

  lemma {:induction false} EffectiveAttempts(run: seq<Event>, now: int)
    requires Timely(run) && forall i | 0 <= i < |run| :: SlotOfEvent(run[i]) <= now
    ensures Attempts(Effective(run)) == Attempts(Ops(run)) && Monotone(Effective(run))
    ensures forall k | 0 <= k < |Effective(run)| :: Effective(run)[k].slot <= now
  {
    if run != [] {
      hide Attempts, Run, Step;
      var before, e := run[..|run| - 1], run[|run| - 1];
      EffectiveAttempts(before, SlotOfEvent(e));
      match e {
        case Expires(slot) =>
          Performed(Effective(before), Sweep(slot), Ops(before));
          AttemptsExtend(Effective(before), Sweep(slot));
        case Arrives(req, _) =>
          if Counted(req) {
            Performed(Effective(before), Attempt(req.ipv4.value, req.slot), Ops(before));
          }
      }
    }
  }

  /** Whether the address has a record after the run. */
  predicate OnRecord(run: seq<Event>, ip: nat) {
    ip in RateTrace.Run(Effective(run))
  }

  predicate CountedOf(e: Event, ip: nat) {
    e.Arrives? && Counted(e.req) && e.req.ipv4.value == ip
  }

  /** The log time after the run, of the last record the address had. */
  function LogAt(run: seq<Event>, ip: nat): Option<int>
    decreases |run|, 0
  {
    if run == [] then None
    else
      var before, e := run[..|run| - 1], run[|run| - 1];
      if CountedOf(e, ip) then
        var found := FoundLog(before, ip, e.req.now);
        Some(if Noticed(e.req, found) then e.req.now else found)
      else LogAt(before, ip)
  }

  /** The log time a counted request of the address finds, or sets. */
  function FoundLog(run: seq<Event>, ip: nat, now: int): int
    decreases |run|, 1
  {
    if OnRecord(run, ip) && LogAt(run, ip).Some? then LogAt(run, ip).value else now
  }

  function LogOf(run: seq<Event>, req: Request): int {
    if Counted(req) then FoundLog(run, req.ipv4.value, req.now) else req.now
  }

  /** Every record in the table carries the log time of the history. */
  ghost predicate LogsAgree(t: Table, logs: map<nat, int>, run: seq<Event>) {
    forall ip | ip in t :: ip in logs && LogAt(run, ip) == Some(logs[ip])
  }

  lemma LogsNext(t: Table, logs: map<nat, int>, run: seq<Event>, e: Event, t': Table, logs': map<nat, int>)
    requires RateTrace.Shaped(t) && t == RateTrace.Run(Effective(run)) && LogsAgree(t, logs, run)
    requires e.Expires? ==> t'.Keys <= t.Keys && logs' == logs
    requires e.Arrives? && !Counted(e.req) ==> t' == t && logs' == logs
    requires e.Arrives? && Counted(e.req) ==>
               var found := LogTime(t, logs, e.req.ipv4.value, e.req.now);
               && t'.Keys == t.Keys + {e.req.ipv4.value}
               && logs' == logs[e.req.ipv4.value := if Noticed(e.req, found) then e.req.now else found]
    ensures LogsAgree(t', logs', run + [e])
    ensures e.Arrives? && Counted(e.req) ==> LogTime(t, logs, e.req.ipv4.value, e.req.now) == FoundLog(run, e.req.ipv4.value, e.req.now)
  {
    hide Noticed, Effective, LogAt, Counted, RateTrace.Shaped, Run;
    LogFound(t, logs, run, e);
    forall ip | ip in t' ensures ip in logs' && LogAt(run + [e], ip) == Some(logs'[ip]) {
      LogNext(run, e, ip);
    }
  }

  lemma LogFound(t: Table, logs: map<nat, int>, run: seq<Event>, e: Event)
    requires t == RateTrace.Run(Effective(run)) && LogsAgree(t, logs, run)
    ensures e.Arrives? && Counted(e.req) ==> LogTime(t, logs, e.req.ipv4.value, e.req.now) == FoundLog(run, e.req.ipv4.value, e.req.now)
  {
    hide Effective, Run;
  }

  lemma LogNext(run: seq<Event>, e: Event, ip: nat)
    ensures LogAt(run + [e], ip) ==
            if CountedOf(e, ip) then
              (var found := FoundLog(run, ip, e.req.now); Some(if Noticed(e.req, found) then e.req.now else found))
            else LogAt(run, ip)
  {
    assert (run + [e])[..|run|] == run;
  }

  /** Every request was decided as the true count and the log time of the history call for. */
  ghost predicate Right(run: seq<Event>, decisions: seq<Option<Decision>>) {
    && |decisions| == |run|
    && forall i | 0 <= i < |run| && run[i].Arrives? :: decisions[i].Some? && RightAt(run, i, decisions[i].value)
  }

  ghost predicate RightAt(run: seq<Event>, i: nat, d: Decision)
    requires i < |run| && run[i].Arrives?
  {
    var cfg, req, count, log := run[i].cfg, run[i].req, TrueCount(run[..i + 1], run[i].req), LogOf(run[..i], run[i].req);
    && d.channel == Channel(cfg, req, count) && d.accessCounter == count
    && (d.reported <==> Reported(cfg, req, count, log)) && (d.noticed <==> Noticed(req, log))
    && (d.autoBlacklisted <==> Counted(req) && !req.blacklisted && count > cfg.threshold && !req.vip)
    && (d.blacklisted <==> req.inDatabase.None? && req.whitelisted && req.blacklisted)
  }

  /** How many counted attempts of `ip` in twelve slots the decisions let through. */
  function LetThrough(run: seq<Event>, decisions: seq<Option<Decision>>, ip: nat, from: int): (n: nat)
    requires |decisions| == |run|
  {
    if run == [] then 0
    else
      var last, d := run[|run| - 1], decisions[|run| - 1];
      LetThrough(run[..|run| - 1], decisions[..|run| - 1], ip, from) +
      if last.Arrives? && Counted(last.req) && last.req.ipv4.value == ip && from <= last.req.slot < from + RESERVED_ENTRY &&
         d.Some? && d.value.channel >= 0 then 1 else 0
  }

  lemma {:induction false} LetThroughIsAdmitted(run: seq<Event>, decisions: seq<Option<Decision>>, ip: nat, from: int)
    requires Timely(run) && Right(run, decisions)
    ensures LetThrough(run, decisions, ip, from) == Admitted(run, ip, from)
  {
    if run != [] {
      hide Channel, Count, Ops, CounterAt;
      var n := |run| - 1;
      RightBefore(run, decisions);
      LetThroughIsAdmitted(run[..n], decisions[..n], ip, from);
      assert run[..n + 1] == run;
      if run[n].Arrives? && Counted(run[n].req) && run[n].req.ipv4.value == ip {
        CounterIsTheWindow(run, ip);
      }
    }
  }

  lemma RightBefore(run: seq<Event>, decisions: seq<Option<Decision>>)
    requires Timely(run) && Right(run, decisions) && run != []
    ensures Timely(run[..|run| - 1]) && Right(run[..|run| - 1], decisions[..|run| - 1])
  {
    hide Channel, TrueCount, Reported, Noticed, LogOf;
    var before, made := run[..|run| - 1], decisions[..|run| - 1];
    forall i | 0 <= i < |before| && before[i].Arrives? ensures made[i].Some? && RightAt(before, i, made[i].value) {
      assert before[..i + 1] == run[..i + 1] && before[..i] == run[..i] && before[i] == run[i] && made[i] == decisions[i];
    }
  }

  lemma BoundHolds(run: seq<Event>, decisions: seq<Option<Decision>>)
    requires |decisions| == |run| && Timely(run) && Right(run, decisions)
    ensures forall ip, from :: LetThrough(run, decisions, ip, from) == Admitted(run, ip, from)
    ensures forall ip, from, threshold | NeverVip(run, ip, threshold) :: LetThrough(run, decisions, ip, from) <= if threshold < 0 then 0 else threshold
  {
    hide Right, LetThrough, Admitted, NeverVip, Timely;
    forall ip: nat, from: int ensures LetThrough(run, decisions, ip, from) == Admitted(run, ip, from) {
      LetThroughIsAdmitted(run, decisions, ip, from);
    }
    forall ip: nat, from: int, threshold: int | NeverVip(run, ip, threshold)
      ensures LetThrough(run, decisions, ip, from) <= if threshold < 0 then 0 else threshold
    {
      RateBound(run, ip, from, threshold);
    }
  }

  ghost predicate NeverVip(run: seq<Event>, ip: nat, threshold: int) {
    forall e | e in run && e.Arrives? && e.req.ipv4 == Some(ip) :: !e.req.vip && e.cfg.threshold == threshold
  }

  /** The limiter driven by a run of requests and wake-ups of the expiry thread: every decision is the
      one the true counts of the history call for. */
  method Serve(hashSize: nat, run: seq<Event>) returns (decisions: seq<Option<Decision>>)
    requires hashSize > 0 && Timely(run)
    ensures Right(run, decisions)
    ensures forall ip, from :: LetThrough(run, decisions, ip, from) == Admitted(run, ip, from)
    ensures forall ip, from, threshold | NeverVip(run, ip, threshold) :: LetThrough(run, decisions, ip, from) <= if threshold < 0 then 0 else threshold
  {
    hide Blacklist.Valid, Blacklist.Logged, Step, Channel, Reported, Noticed, Run, Count, Attempts, Ops, Effective, Recent, LogAt, FoundLog, LogTime, RightAt;
    var table := new Blacklist(hashSize);
    EmptyHistory(run);
    decisions := [];
    var i := 0;
    while i < |run|
      invariant 0 <= i <= |run| && |decisions| == i
      invariant table.Valid() && table.Logged() && fresh(table) && fresh(table.heads) && fresh(table.entries) && fresh(CellsOf(table.entries))
      invariant table.model == RateTrace.Run(Effective(run[..i])) && table.recentIndex == Recent(run[..i]) && LogsAgree(table.model, table.logs, run[..i])
      invariant forall j | 0 <= j < i && run[j].Arrives? :: decisions[j].Some? && RightAt(run, j, decisions[j].value)
    {
      ghost var t, logs := table.model, table.logs;
      EffectiveNext(run, i);
      match run[i] {
        case Arrives(req, cfg) =>
          var d := AcceptingRequest(table, cfg, req);
          if Counted(req) {
            CountsKeys(t, req.ipv4.value, req.slot);
          }
          ArrivalIsRight(run, i, t, logs, d);
          decisions := decisions + [Some(d)];
        case Expires(slot) =>
          var _ := table.Expiring(slot);
          SweepsKeys(t, slot);
          decisions := decisions + [None];
      }
      LogsNext(t, logs, run[..i], run[i], table.model, table.logs);
      assert run[..i] + [run[i]] == run[..i + 1];
      i := i + 1;
    }
    assert run[..|run|] == run;
    BoundHolds(run, decisions);
  }

  lemma CountsKeys(t: Table, ip: nat, slot: nat)
    requires RateTrace.Shaped(t)
    ensures Step(t, Attempt(ip, slot)).Keys == t.Keys + {ip}
  {
  }

  lemma SweepsKeys(t: Table, slot: nat)
    requires RateTrace.Shaped(t)
    ensures Step(t, Sweep(slot)).Keys <= t.Keys
  {
  }

  /** What one more event does to the history of the table. */
  lemma EffectiveNext(run: seq<Event>, i: nat)
    requires i < |run|
    ensures var before, all := run[..i], run[..i + 1];
            match run[i]
            case Expires(slot) =>
              && Recent(all) == slot % RESERVED_ENTRY
              && RateTrace.Run(Effective(all)) == (if Recent(before) == slot % RESERVED_ENTRY then RateTrace.Run(Effective(before)) else Step(RateTrace.Run(Effective(before)), Sweep(slot)))
            case Arrives(req, _) =>
              && Recent(all) == Recent(before)
              && RateTrace.Run(Effective(all)) == if Counted(req) then Step(RateTrace.Run(Effective(before)), Attempt(req.ipv4.value, req.slot)) else RateTrace.Run(Effective(before))
  {
    assert run[..i + 1][..i] == run[..i];
    match run[i]
    case Expires(slot) => RunExtend(Effective(run[..i]), Sweep(slot));
    case Arrives(req, _) => if Counted(req) { RunExtend(Effective(run[..i]), Attempt(req.ipv4.value, req.slot)); }
  }

  /** The table's counter is the true count, although passes that were skipped are missing from its history. */
  lemma TableCounts(run: seq<Event>, i: nat)
    requires i < |run| && Timely(run) && run[i].Arrives? && Counted(run[i].req)
    ensures var req := run[i].req;
            && req.ipv4.value in Step(RateTrace.Run(Effective(run[..i])), Attempt(req.ipv4.value, req.slot))
            && Step(RateTrace.Run(Effective(run[..i])), Attempt(req.ipv4.value, req.slot))[req.ipv4.value].total == TrueCount(run[..i + 1], req)
  {
    hide Run, Step, Effective, Ops, Attempts, Count;
    var req, ops := run[i].req, Effective(run[..i]);
    var op := Attempt(req.ipv4.value, req.slot);
    EffectiveAttempts(run[..i], req.slot);
    Performed(ops, op, Ops(run[..i]));
    WindowRefinement(ops, req.ipv4.value, req.slot);
    OpsNext(run, i);
    SameAttemptsSameCount(ops + [op], Ops(run[..i + 1]), req.ipv4.value, req.slot - RESERVED_ENTRY + 1, req.slot);
  }

  lemma ArrivalIsRight(run: seq<Event>, i: nat, t: Table, logs: map<nat, int>, d: Decision)
    requires i < |run| && Timely(run) && run[i].Arrives? && RateTrace.Shaped(t) && t == RateTrace.Run(Effective(run[..i])) && LogsAgree(t, logs, run[..i])
    requires var cfg, req := run[i].cfg, run[i].req;
             && d.accessCounter == (if Counted(req) then (var t' := Step(t, Attempt(req.ipv4.value, req.slot)); if req.ipv4.value in t' then t'[req.ipv4.value].total else 0) else 0)
             && d.channel == Channel(cfg, req, d.accessCounter)
             && (d.autoBlacklisted <==> Counted(req) && !req.blacklisted && d.accessCounter > cfg.threshold && !req.vip)
             && (d.blacklisted <==> req.inDatabase.None? && req.whitelisted && req.blacklisted)
             && (!Counted(req) ==> !d.reported && !d.noticed)
             && (Counted(req) ==>
                   var logTime := LogTime(t, logs, req.ipv4.value, req.now);
                   (d.reported <==> Reported(cfg, req, d.accessCounter, logTime)) && (d.noticed <==> Noticed(req, logTime)))
    ensures RightAt(run, i, d)
  {
    hide Channel, Run, Step, Effective, Ops, Attempts, Count, LogAt;
    if Counted(run[i].req) {
      TableCounts(run, i);
    }
  }

  lemma EmptyHistory(run: seq<Event>)
    ensures RateTrace.Run(Effective(run[..0])) == map[] && Recent(run[..0]) == -1
  {
  }

  lemma OpsNext(run: seq<Event>, i: nat)
    requires i < |run|
    ensures Ops(run[..i + 1]) == match run[i]
                                 case Expires(slot) => Ops(run[..i]) + [Sweep(slot)]
                                 case Arrives(req, _) =>
                                   if Counted(req) then Ops(run[..i]) + [Attempt(req.ipv4.value, req.slot)] else Ops(run[..i])
  {
    assert run[..i + 1][..i] == run[..i];
  }

  lemma Performed(ops: seq<Op>, op: Op, history: seq<Op>)
    requires Monotone(ops) && (forall i | 0 <= i < |ops| :: ops[i].slot <= op.slot) && Attempts(ops) == Attempts(history)
    ensures Monotone(ops + [op]) && forall i | 0 <= i < |ops + [op]| :: (ops + [op])[i].slot <= op.slot
    ensures Run(ops + [op]) == Step(Run(ops), op) && Attempts(ops + [op]) == Attempts(history + [op])
  {
    MonotoneExtend(ops, op);
    RunExtend(ops, op);
    AttemptsExtend(ops, op);
    AttemptsExtend(history, op);
  }

  // ---------------------------------------------------------------- every decision, spelled out

  /** How many whitelisted requests without a prepared one came from an address with a slot in [lo, hi]. */
  function Arrivals(run: seq<Event>, ip: nat, lo: int, hi: int): nat {
    if run == [] then 0
    else
      var e := run[|run| - 1];
      Arrivals(run[..|run| - 1], ip, lo, hi) +
      if e.Arrives? && e.req.inDatabase.None? && e.req.whitelisted && e.req.ipv4 == Some(ip) && lo <= e.req.slot <= hi then 1 else 0
  }

  lemma {:induction false} ArrivalsAreCounted(run: seq<Event>, ip: nat, lo: int, hi: int)
    ensures Count(Ops(run), ip, lo, hi) == Arrivals(run, ip, lo, hi)
  {
    if run != [] {
      var before, e := run[..|run| - 1], run[|run| - 1];
      ArrivalsAreCounted(before, ip, lo, hi);
      if e.Expires? {
        CountExtend(Ops(before), Sweep(e.slot), ip, lo, hi);
      } else if Counted(e.req) {
        CountExtend(Ops(before), Attempt(e.req.ipv4.value, e.req.slot), ip, lo, hi);
      }
    }
  }

  /** Every request of a run, in the terms of the request, the configuration, and the number of arrivals of its
      address in the last twelve slots, itself included. */
  lemma EveryDecision(run: seq<Event>, decisions: seq<Option<Decision>>, i: nat)
    requires Right(run, decisions) && i < |run| && run[i].Arrives?
    ensures decisions[i].Some?
    ensures var d, cfg, req := decisions[i].value, run[i].cfg, run[i].req;
            var counted := req.inDatabase.None? && req.whitelisted && req.ipv4.Some?;
            var n := if counted then Arrivals(run[..i + 1], req.ipv4.value, req.slot - 11, req.slot) else 0;
            var log := if counted && OnRecord(run[..i], req.ipv4.value) && LogAt(run[..i], req.ipv4.value).Some?
                       then LogAt(run[..i], req.ipv4.value).value else req.now;
            && d.accessCounter == n
            // a prepared request gets its own channel
            && (req.inDatabase.Some? ==> d.channel == req.inDatabase.value)
            // strangers and the blacklisted are refused
            && (req.inDatabase.None? && (!req.whitelisted || req.blacklisted) ==> d.channel == -1)
            // peers that are not counted get the default server
            && (req.inDatabase.None? && req.whitelisted && !req.blacklisted && req.ipv4.None? ==> d.channel == cfg.defaultServer)
            // above the threshold a VIP gets the default server and anybody else is refused
            && (counted && !req.blacklisted && n > cfg.threshold ==> d.channel == if req.vip then cfg.defaultServer else -1)
            && (d.autoBlacklisted <==> counted && !req.blacklisted && n > cfg.threshold && !req.vip)
            // below it the fallback is tried on even counts among the last seven, when guessing failed
            && (counted && !req.blacklisted && n <= cfg.threshold && cfg.onFailedChannel != cfg.defaultServer ==>
                  && (d.channel == cfg.onFailedChannel <==> n >= cfg.threshold - 6 && n % 2 == 0 && req.failing)
                  && (d.channel == cfg.onFailedChannel || d.channel == cfg.defaultServer))
            && (counted && !req.blacklisted && n <= cfg.threshold && cfg.onFailedChannel == cfg.defaultServer ==> d.channel == cfg.defaultServer)
            // reported for its rate, or for the age of its record
            && (d.reported <==>
                && counted && !req.blacklisted
                && if n > cfg.threshold && !req.vip then n > cfg.persistThreshold
                   else d.channel >= 0 && !req.vipLater && Old(req.now - log, cfg.maxPersistentTime))
            // noted when refused as blacklisted more than half an hour after its log time
            && (d.noticed <==> counted && req.blacklisted && req.now - log > 1800000000)
            && (d.blacklisted <==> req.inDatabase.None? && req.whitelisted && req.blacklisted)
  {
    hide Arrivals, LogAt, OnRecord, Ops, Count;
    var req := run[i].req;
    assert RightAt(run, i, decisions[i].value);
    if Counted(req) {
      ArrivalsAreCounted(run[..i + 1], req.ipv4.value, req.slot - 11, req.slot);
      SecondsOver(req.now - LogOf(run[..i], req), run[i].cfg.maxPersistentTime);
    }
  }

  /** More whole seconds than the limit. */
  predicate Old(microseconds: int, limit: int) {
    if limit >= 0 then microseconds >= (limit + 1) * 1000000 else microseconds > limit * 1000000
  }

  lemma SecondsOver(microseconds: int, limit: int)
    ensures Seconds(microseconds) > limit <==> Old(microseconds, limit)
  {
  }

  /** Request `j` set the log time of the address: it made the record, or it was noted. */
  ghost predicate Marks(run: seq<Event>, j: int, ip: nat) {
    && 0 <= j < |run| && run[j].Arrives? && run[j].req.inDatabase.None? && run[j].req.whitelisted && run[j].req.ipv4 == Some(ip)
    && (OnRecord(run[..j], ip) && LogAt(run[..j], ip).Some? ==>
          run[j].req.blacklisted && run[j].req.now - LogAt(run[..j], ip).value > 1800000000)
  }

  lemma MarkedLast(run: seq<Event>, ip: nat)
    requires run != []
    ensures var n, before := |run| - 1, run[..|run| - 1];
            && LogAt(run, ip) == (if Marks(run, n, ip) then Some(run[n].req.now) else LogAt(before, ip))
            && forall j | 0 <= j < n :: Marks(run, j, ip) <==> Marks(before, j, ip)
  {
    hide OnRecord, LogAt;
    var n := |run| - 1;
    LogNext(run[..n], run[n], ip);
    assert run[..n] + [run[n]] == run;
    forall j | 0 <= j < n ensures Marks(run, j, ip) <==> Marks(run[..n], j, ip) {
      assert run[..n][..j] == run[..j];
    }
  }

  /** Request `j` was the last to set it. */
  ghost predicate LastMark(run: seq<Event>, j: int, ip: nat) {
    Marks(run, j, ip) && forall k | j < k < |run| :: !Marks(run, k, ip)
  }

  lemma LastMarkStep(run: seq<Event>, j: int, ip: nat)
    requires run != [] && LastMark(run, j, ip)
    ensures 0 <= j < |run| && run[j].Arrives?
    ensures if Marks(run, |run| - 1, ip) then j == |run| - 1 else j < |run| - 1 && LastMark(run[..|run| - 1], j, ip) && run[..|run| - 1][j] == run[j]
  {
    MarkedLast(run, ip);
  }

  lemma {:induction false} LogMarked(run: seq<Event>, ip: nat) returns (j: int)
    requires LogAt(run, ip).Some?
    ensures LastMark(run, j, ip)
  {
    hide LogAt;
    if run == [] {
      NoLog(ip);
    } else {
      MarkedLast(run, ip);
      if Marks(run, |run| - 1, ip) {
        j := |run| - 1;
      } else {
        j := LogMarked(run[..|run| - 1], ip);
      }
    }
  }

  lemma NoLog(ip: nat)
    ensures LogAt([], ip).None?
  {
  }

  /** The log time is the clock of the last request that set it, and there is one when there is a log time. */
  lemma {:induction false} LogIsTheLastMark(run: seq<Event>, ip: nat, j: int)
    requires LastMark(run, j, ip)
    ensures 0 <= j < |run| && run[j].Arrives? && LogAt(run, ip) == Some(run[j].req.now)
  {
    hide LogAt, Marks, LastMark;
    if run == [] {
      NothingMarked(j, ip);
    } else {
      LastMarkStep(run, j, ip);
      MarkedLast(run, ip);
      if !Marks(run, |run| - 1, ip) {
        LogIsTheLastMark(run[..|run| - 1], ip, j);
      }
    }
  }

  lemma NothingMarked(j: int, ip: nat)
    ensures !LastMark([], j, ip)
  {
  }
}
