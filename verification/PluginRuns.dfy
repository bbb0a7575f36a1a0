/** What the plugin host does over whole histories: when a deferred unload happens, and when the plugin is
    given connections and packets. */
module PluginRuns {
  import opened Options
  import opened PluginHost

  /** Everything that can happen to the host. `Release` and `Analyze` name one of the data held. */
  datatype Event =
    | Command(command: PluginHost.Command)
    | SafeMode(on: bool)
    | Allocate(gives: bool)
    | Release(i: nat, closes: bool)
    | Analyze(i: nat, crashes: bool)

  /** The host, and the data it has handed out that is still held. */
  datatype Host = Host(plugin: Plugin, held: seq<Option<nat>>)

  function Next(h: Host, e: Event): Host {
    match e
    case Command(command) => h.(plugin := Commanded(h.plugin, command))
    case SafeMode(on) => h.(plugin := h.plugin.(safeMode := on))
    case Allocate(gives) =>
      var (q, d) := Allocated(h.plugin, gives);
      Host(q, [d] + h.held)
    case Release(i, closes) =>
      if i < |h.held| then Host(Released(h.plugin, h.held[i], closes), h.held[..i] + h.held[i + 1..]) else h
    case Analyze(i, crashes) =>
      if i < |h.held| then h.(plugin := Analyzed(h.plugin, h.held[i], crashes)) else h
  }

  function After(events: seq<Event>): Host {
    if events == [] then Host(NO_PLUGIN, []) else Next(After(events[..|events| - 1]), events[|events| - 1])
  }

  function Before(events: seq<Event>, k: int): Host
    requires 0 <= k <= |events|
  {
    After(events[..k])
  }

  /** Event `k` brings a plugin into memory. */
  predicate Loads(events: seq<Event>, k: int)
    requires 0 <= k < |events|
  {
    events[k] == Command(LoadPlugin(Found)) && Before(events, k).plugin.loaded.None?
  }

  /** Event `k` asks for an unload while data is held. */
  predicate Asks(events: seq<Event>, k: int)
    requires 0 <= k < |events|
  {
    events[k].Command? && events[k].command.UnloadPlugin? && Held(Before(events, k).held) > 0
  }

  /** Event `k` is a packet on which the plugin crashes, in safe mode. */
  predicate Crashes(events: seq<Event>, k: int)
    requires 0 <= k < |events|
  {
    && events[k].Analyze? && events[k].crashes && Before(events, k).plugin.safeMode
    && events[k].i < |Before(events, k).held| && Analyzes(events[..k], events[k].i)
  }

  /** The plugin would be asked about a packet of the connection with the `i`th data. */
  predicate Analyzes(events: seq<Event>, i: nat) {
    var h := After(events);
    i < |h.held| && Asked(h.plugin, h.held[i])
  }

  /** Since the plugin was loaded an unload was asked for while data was held, or the plugin crashed. */
  ghost predicate Condemned(events: seq<Event>) {
    exists k :: Condemns(events, k)
  }

  ghost predicate Condemns(events: seq<Event>, k: int) {
    && 0 <= k < |events| && (Asks(events, k) || Crashes(events, k))
    && forall j | k < j < |events| :: !Loads(events, j)
  }

  /** The last request to enable or disable was to enable, and no load or crash came after it. */
  ghost predicate On(events: seq<Event>) {
    exists k :: Enables(events, k)
  }

  ghost predicate Enables(events: seq<Event>, k: int) {
    && 0 <= k < |events| && events[k] == Command(EnablePlugin(true))
    && forall j | k < j < |events| :: !Switches(events[j]) && !Loads(events, j) && !Crashes(events, j)
  }

  predicate Switches(e: Event) {
    e.Command? && e.command.EnablePlugin?
  }

  // ---------------------------------------------------------------- the invariant

  ghost predicate Kept(events: seq<Event>) {
    var h := After(events);
    && Keeps(h.plugin, h.held)
    && (h.plugin.loaded.Some? ==> (h.plugin.autoUnload <==> Condemned(events)) && (h.plugin.enabled <==> On(events)))
  }

  lemma BeforeSame(events: seq<Event>, e: Event, k: int)
    requires 0 <= k < |events|
    ensures (events + [e])[k] == events[k]
    ensures Loads(events + [e], k) == Loads(events, k) && Asks(events + [e], k) == Asks(events, k) && Crashes(events + [e], k) == Crashes(events, k)
  {
    assert (events + [e])[..k] == events[..k];
  }

  lemma AllBefore(events: seq<Event>, e: Event)
    ensures var all := events + [e];
            forall k | 0 <= k < |events| ::
              all[k] == events[k] && Loads(all, k) == Loads(events, k) && Asks(all, k) == Asks(events, k) && Crashes(all, k) == Crashes(events, k)
  {
    hide Loads, Asks, Crashes;
    forall k | 0 <= k < |events|
      ensures (events + [e])[k] == events[k]
      ensures Loads(events + [e], k) == Loads(events, k) && Asks(events + [e], k) == Asks(events, k) && Crashes(events + [e], k) == Crashes(events, k)
    {
      BeforeSame(events, e, k);
    }
  }

  lemma CondemnedNext(events: seq<Event>, e: Event)
    ensures var all, n := events + [e], |events|;
            Condemned(all) <==> Asks(all, n) || Crashes(all, n) || (Condemned(events) && !Loads(all, n))
  {
    hide Loads, Asks, Crashes;
    AllBefore(events, e);
    var all, n := events + [e], |events|;
    if k :| Condemns(events, k) && !Loads(all, n) {
      assert Condemns(all, k);
    }
    if Asks(all, n) || Crashes(all, n) {
      assert Condemns(all, n);
    }
    if k :| Condemns(all, k) && k < n {
      assert !Loads(all, n) && Condemns(events, k);
    }
  }

  lemma OnNext(events: seq<Event>, e: Event)
    ensures var all, n := events + [e], |events|;
            On(all) <==> e == Command(EnablePlugin(true)) || (On(events) && !Switches(e) && !Loads(all, n) && !Crashes(all, n))
  {
    hide Loads, Asks, Crashes, Switches;
    AllBefore(events, e);
    var all, n := events + [e], |events|;
    assert all[n] == e;
    if k :| Enables(events, k) && !Switches(e) && !Loads(all, n) && !Crashes(all, n) {
      assert Enables(all, k);
    }
    if e == Command(EnablePlugin(true)) {
      assert Enables(all, n);
    }
    if k :| Enables(all, k) && k < n {
      assert Enables(events, k);
    }
  }

  lemma {:induction false} EveryHistoryKeeps(events: seq<Event>)
    ensures Kept(events)
  {
    if events != [] {
      var n := |events| - 1;
      var before, e := events[..n], events[n];
      EveryHistoryKeeps(before);
      assert before + [e] == events;
      CondemnedNext(before, e);
      OnNext(before, e);
      NextKeeps(before, e);
    }
  }

  lemma NextKeeps(events: seq<Event>, e: Event)
    requires Kept(events)
    requires var all, n := events + [e], |events|;
             && (Condemned(all) <==> Asks(all, n) || Crashes(all, n) || (Condemned(events) && !Loads(all, n)))
             && (On(all) <==> e == Command(EnablePlugin(true)) || (On(events) && !Switches(e) && !Loads(all, n) && !Crashes(all, n)))
    ensures Kept(events + [e])
  {
    hide Condemned, On;
    var all, n, h := events + [e], |events|, After(events);
    assert all[..n] == events && all[n] == e && Before(all, n) == h;
    match e {
      case Command(LoadPlugin(outcome)) => CommandsKeep(h.plugin, h.held, outcome, false, false, 0, false);
      case Command(UnloadPlugin(closes)) => CommandsKeep(h.plugin, h.held, Found, closes, false, 0, false);
      case Command(EnablePlugin(on)) => CommandsKeep(h.plugin, h.held, Found, false, on, 0, false);
      case SafeMode(on) =>
      case Allocate(gives) => AllocateKeeps(h.plugin, h.held, gives);
      case Release(i, closes) => if i < |h.held| { ReleaseKeeps(h.plugin, h.held, i, closes); }
      case Analyze(i, crashes) => CommandsKeep(h.plugin, h.held, Found, false, false, i, crashes);
    }
  }

  // ---------------------------------------------------------------- what the host does

  /** A release takes the plugin out of memory exactly when it gives up the last data held and, since the load,
      an unload was asked for while data was held, or the plugin crashed. */
  lemma ReleaseUnloadsExactly(events: seq<Event>, i: nat, closes: bool)
    requires i < |After(events).held|
    ensures var h, h' := After(events), After(events + [Release(i, closes)]);
            && (h.plugin.loaded.Some? && h'.plugin.loaded.None? <==>
                h.held[i].Some? && (forall j | 0 <= j < |h.held| && j != i :: h.held[j].None?) && Condemned(events))
            && (h'.plugin.loaded.Some? ==> h'.plugin.loaded == h.plugin.loaded)
            && h'.held == h.held[..i] + h.held[i + 1..]
  {
    hide Condemned, On, Held, Released;
    EveryHistoryKeeps(events);
    var h := After(events);
    assert (events + [Release(i, closes)])[..|events|] == events;
    ReleaseKeeps(h.plugin, h.held, i, closes);
    NoneElse(h.held, i);
  }

  lemma NoneElse(held: seq<Option<nat>>, i: nat)
    requires i < |held|
    ensures Held(held[..i] + held[i + 1..]) == 0 <==> forall j | 0 <= j < |held| && j != i :: held[j].None?
  {
    var rest := held[..i] + held[i + 1..];
    HeldNone(rest);
    assert forall j | 0 <= j < |held| && j != i :: held[j] == rest[if j < i then j else j - 1];
    assert forall j | 0 <= j < |rest| :: rest[j] == held[if j < i then j else j + 1];
  }

  /** A connection is given data exactly when the plugin has some to give, is in memory and is on. */
  lemma GivenExactly(events: seq<Event>, gives: bool)
    ensures var h, h' := After(events), After(events + [Allocate(gives)]);
            && |h'.held| == |h.held| + 1 && h'.held[1..] == h.held
            && (h'.held[0].Some? <==> gives && h.plugin.loaded.Some? && On(events))
            && (h'.held[0].Some? ==> h'.held[0] == h.plugin.loaded)
  {
    hide On, Condemned;
    EveryHistoryKeeps(events);
    assert (events + [Allocate(gives)])[..|events|] == events;
  }

  /** A packet is analyzed exactly when its connection holds data and the plugin is on. */
  lemma AnalyzedExactly(events: seq<Event>, i: nat)
    ensures Analyzes(events, i) <==> i < |After(events).held| && After(events).held[i].Some? && On(events)
  {
    hide On, Condemned;
    EveryHistoryKeeps(events);
  }

  /** What the operator's commands do, and answer. */
  lemma CommandsExactly(events: seq<Event>, outcome: LoadOutcome, closes: bool, on: bool)
    ensures var p := After(events).plugin;
            var loaded, unloaded := After(events + [Command(LoadPlugin(outcome))]).plugin, After(events + [Command(UnloadPlugin(closes))]).plugin;
            var holds := exists j | 0 <= j < |After(events).held| :: After(events).held[j].Some?;
            && (p.loaded.Some? ==> loaded == p)
            && (p.loaded.None? ==> (loaded.loaded.Some? <==> outcome == Found))
            && (p.loaded.None? ==> (loaded.library <==> outcome != CannotOpen))
            && (p.loaded.Some? && !holds ==> (unloaded.library <==> p.library && !closes))
            && (Loaded(p, outcome).1 <==> p.loaded.None? && outcome == Found)
            && (holds ==> unloaded.loaded == p.loaded) && (!holds ==> unloaded.loaded.None?)
            && (Unloaded(p, closes).1 <==> p.loaded.Some? && !holds && (!p.library || closes))
            && (After(events + [Command(EnablePlugin(on))]).plugin.enabled <==> on && p.loaded.Some?)
  {
    EveryHistoryKeeps(events);
    hide On, Condemned;
    HeldNone(After(events).held);
    assert (events + [Command(LoadPlugin(outcome))])[..|events|] == events;
    assert (events + [Command(UnloadPlugin(closes))])[..|events|] == events;
    assert (events + [Command(EnablePlugin(on))])[..|events|] == events;
  }
}
