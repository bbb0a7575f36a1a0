/** The packet-analyzer plugin: loading, deferred unloading, and the reference count of the data it hands
    to connections. */
module PluginHost {
  import opened Options

  /** `loaded` is the generation of the plugin in memory: how many loads came before it. */
  datatype Plugin = Plugin(loaded: Option<nat>, library: bool, references: int, enabled: bool, autoUnload: bool, safeMode: bool,
                           loads: nat)

  const NO_PLUGIN := Plugin(None, false, 0, false, false, false, 0)

  datatype LoadOutcome = CannotOpen | NoSymbol | Found

  function Loaded(p: Plugin, outcome: LoadOutcome): (Plugin, bool) {
    if p.loaded.Some? then (p, false)
    else
      match outcome
      case CannotOpen => (p.(library := false), false)
      case NoSymbol => (p.(library := true, enabled := false, autoUnload := false), false)
      case Found => (p.(loaded := Some(p.loads), library := true, enabled := false, autoUnload := false, loads := p.loads + 1), true)
  }

  /** Forgets the plugin unless data is held; then the unload is left to the last release. */
  function Unloaded(p: Plugin, closes: bool): (Plugin, bool) {
    if p.loaded.None? then (p, false)
    else if p.references > 0 then (p.(autoUnload := true), false)
    else (p.(loaded := None, library := p.library && !closes), !p.library || closes)
  }

  function Enabled(p: Plugin, on: bool): Plugin {
    p.(enabled := on && p.loaded.Some?)
  }

  /** What an operator can ask for. */
  datatype Command = LoadPlugin(outcome: LoadOutcome) | UnloadPlugin(closes: bool) | EnablePlugin(on: bool)

  function Commanded(p: Plugin, command: Command): Plugin {
    match command
    case LoadPlugin(outcome) => Loaded(p, outcome).0
    case UnloadPlugin(closes) => Unloaded(p, closes).0
    case EnablePlugin(on) => Enabled(p, on)
  }

  /** Data for a new connection: the generation that made it, when there is one and it gives any. */
  function Allocated(p: Plugin, gives: bool): (Plugin, Option<nat>) {
    if p.loaded.Some? && p.enabled && gives then (p.(references := p.references + 1), p.loaded) else (p, None)
  }

  function Released(p: Plugin, data: Option<nat>, closes: bool): Plugin {
    if data.None? || p.loaded.None? then p
    else
      var q := p.(references := p.references - 1);
      if q.references == 0 && q.autoUnload then Unloaded(q, closes).0 else q
  }

  /** Whether the plugin is asked about a packet of a connection with this data. */
  predicate Asked(p: Plugin, data: Option<nat>) {
    p.enabled && data.Some? && p.loaded.Some?
  }

  function Analyzed(p: Plugin, data: Option<nat>, crashes: bool): Plugin {
    if Asked(p, data) && p.safeMode && crashes then p.(enabled := false, autoUnload := true) else p
  }

  /** The count is the number of data held, and all of it came from the plugin in memory. */
  ghost predicate Keeps(p: Plugin, held: seq<Option<nat>>) {
    && p.references == Held(held)
    && (forall i | 0 <= i < |held| && held[i].Some? :: p.loaded == held[i])
    && (p.loaded.Some? ==> p.loaded.value < p.loads)
  }

  function Held(held: seq<Option<nat>>): (n: nat) {
    if held == [] then 0 else Held(held[1..]) + if held[0].Some? then 1 else 0
  }

  lemma {:induction false} HeldWithout(held: seq<Option<nat>>, i: nat)
    requires i < |held|
    ensures Held(held[..i] + held[i + 1..]) == Held(held) - if held[i].Some? then 1 else 0
  {
    var rest := held[..i] + held[i + 1..];
    if i > 0 {
      HeldWithout(held[1..], i - 1);
      assert rest[0] == held[0] && rest[1..] == held[1..][..i - 1] + held[1..][i - 1 + 1..];
    } else {
      assert held[..0] + held[1..] == held[1..];
    }
  }

  lemma {:induction false} HeldNone(held: seq<Option<nat>>)
    ensures Held(held) == 0 <==> forall i | 0 <= i < |held| :: held[i].None?
  {
    if held != [] {
      HeldNone(held[1..]);
      if Held(held) == 0 {
        forall i | 0 <= i < |held| ensures held[i].None? {
          if i > 0 { assert held[1..][i - 1].None?; }
        }
      }
    }
  }

  lemma AllocateKeeps(p: Plugin, held: seq<Option<nat>>, gives: bool)
    requires Keeps(p, held)
    ensures var (q, d) := Allocated(p, gives); Keeps(q, [d] + held)
  {
    var (q, d) := Allocated(p, gives);
    assert ([d] + held)[1..] == held;
  }

  /** Releasing one connection's data keeps the count; the release that reaches zero performs an unload
      that was put off, and no other release unloads. */
  lemma ReleaseKeeps(p: Plugin, held: seq<Option<nat>>, i: nat, closes: bool)
    requires Keeps(p, held) && i < |held|
    ensures var rest, q := held[..i] + held[i + 1..], Released(p, held[i], closes);
            && Keeps(q, rest)
            && (held[i].Some? && Held(rest) == 0 && p.autoUnload ==> q.loaded.None?)
            && (!(held[i].Some? && Held(rest) == 0 && p.autoUnload) ==> q.loaded == p.loaded)
  {
    var rest := held[..i] + held[i + 1..];
    HeldWithout(held, i);
    HeldNone(rest);
  }

  /** Load, unload, enable and a crash under analysis keep the count; while data is held the plugin that
      made it stays, and what is analyzed is analyzed by the plugin that made its data. */
  lemma CommandsKeep(p: Plugin, held: seq<Option<nat>>, outcome: LoadOutcome, closes: bool, on: bool, i: nat, crashes: bool)
    requires Keeps(p, held)
    ensures Keeps(Loaded(p, outcome).0, held) && Keeps(Unloaded(p, closes).0, held) && Keeps(Enabled(p, on), held)
    ensures Held(held) > 0 ==> Loaded(p, outcome).0.loaded == Unloaded(p, closes).0.loaded == p.loaded
    ensures i < |held| ==> Keeps(Analyzed(p, held[i], crashes), held) && (Asked(p, held[i]) ==> p.loaded == held[i])
  {
    HeldNone(held);
  }

  class PacketAnalyzer {
    var pluggable: Option<nat>
    var library: bool
    var referenceCount: int
    var pluginEnable: bool
    var autoUnload: bool
    var safeMode: bool
    var loads: nat  // names the plugin in memory, as its address does

    ghost function AsPlugin(): Plugin
      reads this
    {
      Plugin(pluggable, library, referenceCount, pluginEnable, autoUnload, safeMode, loads)
    }

    constructor ()
      ensures AsPlugin() == NO_PLUGIN
    {
      pluggable, library, referenceCount, pluginEnable, autoUnload, safeMode, loads := None, false, 0, false, false, false, 0;
    }

    method Load(outcome: LoadOutcome) returns (ok: bool)
      modifies this
      ensures (AsPlugin(), ok) == Loaded(old(AsPlugin()), outcome)
    {
      if pluggable == None {
        library := outcome != CannotOpen;
        if !library {
          return false;
        }
        pluginEnable := false;
        autoUnload := false;
        if outcome == NoSymbol {
          return false;
        }
        pluggable := Some(loads);
        loads := loads + 1;
        return true;
      } else {
        return false;
      }
    }

    method Unload(closes: bool) returns (ok: bool)
      modifies this
      ensures (AsPlugin(), ok) == Unloaded(old(AsPlugin()), closes)
    {
      if pluggable != None {
        if referenceCount <= 0 {
          pluggable := None;
          if library {
            if closes {
              library := false;
            } else {
              return false;
            }
          }
          return true;
        } else {
          autoUnload := true;
        }
      }
      return false;
    }

    method SetEnable(on: bool) returns (enabled: bool)
      modifies this
      ensures AsPlugin() == Enabled(old(AsPlugin()), on) && enabled == AsPlugin().enabled
    {
      pluginEnable := on && pluggable != None;
      return pluginEnable;
    }

    method Allocate(gives: bool) returns (data: Option<nat>)
      modifies this
      ensures (AsPlugin(), data) == Allocated(old(AsPlugin()), gives)
    {
      if pluggable != None && pluginEnable {
        data := if gives then pluggable else None;
        if data != None {
          referenceCount := referenceCount + 1;
        }
        return data;
      }
      return None;
    }

    method Release(data: Option<nat>, closes: bool)
      modifies this
      ensures AsPlugin() == Released(old(AsPlugin()), data, closes)
    {
      if data != None && pluggable != None {
        referenceCount := referenceCount - 1;
        if referenceCount == 0 && autoUnload {
          var _ := Unload(closes);
        }
      }
    }

    method AnalyzePacket(data: Option<nat>, crashes: bool) returns (asked: bool)
      modifies this
      ensures AsPlugin() == Analyzed(old(AsPlugin()), data, crashes) && asked == Asked(old(AsPlugin()), data)
    {
      asked := false;
      if pluginEnable && data != None && pluggable != None {
        asked := true;
        if safeMode {
          if crashes {
            pluginEnable := false;
            autoUnload := true;
          }
        }
      }
    }
  }
}
