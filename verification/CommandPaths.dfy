/** The command tree as a map from word paths: what registering does, and what a line of words finds. */
module CommandPaths {
  import opened Options
  import opened WordSplit

  datatype Info = Info(func: Option<nat>, doc: Option<string>, nargs: int, isRmt: bool, cmdType: int)
  datatype Reg = Reg(path: seq<string>, info: Info)

  type Tree = map<seq<string>, Info>

  /** An inner node made on the way to a command. */
  function Bare(info: Info): Info {
    Info(None, None, 0, info.isRmt, info.cmdType)
  }

  function Parent(path: seq<string>): seq<string>
    requires path != []
  {
    path[..|path| - 1]
  }

  /** Adds a bare node for every prefix of `path` that has none. */
  function Grown(t: Tree, path: seq<string>, bare: Info): Tree {
    if path == [] then t
    else
      var g := Grown(t, Parent(path), bare);
      if path in g then g else g[path := bare]
  }

  function Registered(t: Tree, reg: Reg): (Tree, bool) {
    if reg.path == [] || reg.path in t then (t, false)
    else (Grown(t, reg.path, Bare(reg.info))[reg.path := reg.info], true)
  }

  ghost predicate Closed(t: Tree) {
    forall p | p in t :: p != [] && (|p| > 1 ==> Parent(p) in t)
  }

  lemma {:induction false} ClosedPrefix(t: Tree, p: seq<string>, k: nat)
    requires Closed(t) && p in t && 1 <= k <= |p|
    ensures p[..k] in t
    decreases |p|
  {
    if k < |p| {
      ClosedPrefix(t, Parent(p), k);
      assert Parent(p)[..k] == p[..k];
    } else {
      assert p[..k] == p;
    }
  }

  lemma {:induction false} GrownExact(t: Tree, path: seq<string>, bare: Info)
    requires Closed(t)
    ensures var g := Grown(t, path, bare);
            && Closed(g) && (forall q :: q in g <==> q in t || (q != [] && q <= path))
            && (forall q | q in t :: g[q] == t[q]) && (forall q | q in g && q !in t :: g[q] == bare)
    decreases |path|
  {
    if path != [] {
      GrownExact(t, Parent(path), bare);
      var g := Grown(t, path, bare);
      forall q ensures q in g <==> q in t || (q != [] && q <= path) {
        PrefixOfParent(q, path);
      }
      assert |path| > 1 ==> Parent(path) <= Parent(path);
    }
  }

  lemma GrownAlong(t: Tree, path: seq<string>, bare: Info, n: nat)
    requires n <= |path|
    ensures Grown(t, path[..n], bare) == if n == 0 then t
                                         else var g := Grown(t, path[..n - 1], bare); if path[..n] in g then g else g[path[..n] := bare]
  {
    if n > 0 {
      assert Parent(path[..n]) == path[..n - 1];
    }
  }

  /** Growing towards a node that is there adds nothing. */
  lemma FoundAlready(t: Tree, path: seq<string>, info: Info)
    requires Closed(t) && path != [] && path in Grown(t, Parent(path), Bare(info))
    ensures Registered(t, Reg(path, info)) == (Grown(t, Parent(path), Bare(info)), false)
  {
    GrownExact(t, Parent(path), Bare(info));
    var g := Grown(t, Parent(path), Bare(info));
    forall q | q in g ensures q in t {
      if q != [] && q <= Parent(path) {
        ClosedPrefix(t, path, |q|);
        assert path[..|q|] == q;
      }
    }
    assert g == t;
  }

  lemma NotFound(t: Tree, path: seq<string>, info: Info)
    requires Closed(t) && path != [] && path !in Grown(t, Parent(path), Bare(info))
    ensures Registered(t, Reg(path, info)) == (Grown(t, Parent(path), Bare(info))[path := Bare(info)][path := info], true)
  {
    GrownExact(t, Parent(path), Bare(info));
  }

  lemma PrefixOfParent(q: seq<string>, path: seq<string>)
    requires path != []
    ensures q <= path <==> q <= Parent(path) || q == path
  {
    if q <= path && q != path {
      assert q == path[..|q|] == Parent(path)[..|q|];
    }
  }

  /** A command that is there already, even as an inner node, changes nothing; any other becomes reachable
      with every prefix of it, and what was there before is kept. */
  lemma RegisteredExact(t: Tree, reg: Reg)
    requires Closed(t)
    ensures var (t', ok) := Registered(t, reg);
            && Closed(t') && (ok <==> reg.path != [] && reg.path !in t)
            && (forall q :: q in t' <==> q in t || (q != [] && q <= reg.path))
            && (forall q | q in t :: t'[q] == t[q])
            && (forall q | q in t' && q !in t :: t'[q] == Made(reg, q))
            && (!ok ==> t' == t)
  {
    GrownExact(t, reg.path, Bare(reg.info));
    if reg.path in t {
      forall q | q != [] && q <= reg.path ensures q in t {
        ClosedPrefix(t, reg.path, |q|);
        assert reg.path[..|q|] == q;
      }
    }
  }

  /** What a registration makes of the node at a prefix of its command. */
  function Made(reg: Reg, p: seq<string>): Info {
    if p == reg.path then reg.info else Bare(reg.info)
  }

  function Run(regs: seq<Reg>): Tree {
    if regs == [] then map[] else Registered(Run(regs[..|regs| - 1]), regs[|regs| - 1]).0
  }

  /** A node is reachable exactly when its path is a prefix of some registered command. */
  ghost predicate Reaches(regs: seq<Reg>, p: seq<string>) {
    p != [] && exists i | 0 <= i < |regs| :: p <= regs[i].path
  }

  /** `i` is the first registration with `p` as a prefix. */
  ghost predicate First(regs: seq<Reg>, p: seq<string>, i: int) {
    0 <= i < |regs| && p <= regs[i].path && forall j | 0 <= j < i :: !(p <= regs[j].path)
  }

  /** After any registrations: the nodes are the prefixes of the commands, and each is for ever what the
      first registration through it made it. */
  lemma {:induction false} RunExact(regs: seq<Reg>)
    ensures Closed(Run(regs)) && forall p :: p in Run(regs) <==> Reaches(regs, p)
    ensures forall p, i | p in Run(regs) && First(regs, p, i) ::
              Run(regs)[p] == if p == regs[i].path then regs[i].info else Info(None, None, 0, regs[i].info.isRmt, regs[i].info.cmdType)
  {
    if regs != [] {
      var n := |regs| - 1;
      var before, reg := regs[..n], regs[n];
      RunExact(before);
      RegisteredExact(Run(before), reg);
      hide Reaches, First, Closed;
      forall p ensures p in Run(regs) <==> Reaches(regs, p) {
        ReachesMore(before, reg, p);
        assert regs == before + [reg];
      }
      forall p, i | p in Run(regs) && First(regs, p, i) ensures Run(regs)[p] == Made(regs[i], p) {
        FirstBefore(regs, p, i);
      }
    }
  }

  lemma FirstBefore(regs: seq<Reg>, p: seq<string>, i: int)
    requires First(regs, p, i) && p != []
    ensures var before := regs[..|regs| - 1];
            if i < |regs| - 1 then First(before, p, i) && Reaches(before, p) && before[i] == regs[i] else !Reaches(before, p)
  {
    var before := regs[..|regs| - 1];
    if i < |regs| - 1 {
      assert p <= before[i].path;
    }
    assert forall j | 0 <= j < |before| :: before[j] == regs[j];
  }

  lemma ReachesMore(before: seq<Reg>, reg: Reg, p: seq<string>)
    ensures Reaches(before + [reg], p) <==> Reaches(before, p) || (p != [] && p <= reg.path)
  {
    var all := before + [reg];
    if Reaches(before, p) {
      var i :| 0 <= i < |before| && p <= before[i].path;
      assert all[i] == before[i];
    }
    if p <= reg.path {
      assert all[|before|] == reg;
    }
  }

  // ---------------------------------------------------------------- lookup

  /** How many words from the `n`th on lead from node to node. */
  function Match(t: Tree, words: seq<string>, n: nat): (m: nat)
    requires n <= |words|
    ensures n <= m <= |words|
    decreases |words| - n
  {
    if n < |words| && words[..n + 1] in t then Match(t, words, n + 1) else n
  }

  lemma {:induction false} MatchExact(t: Tree, words: seq<string>, n: nat)
    requires Closed(t) && n <= |words| && (n > 0 ==> words[..n] in t)
    ensures var m := Match(t, words, n);
            && (m > 0 ==> words[..m] in t) && forall k | m < k <= |words| :: words[..k] !in t
    decreases |words| - n
  {
    if n < |words| && words[..n + 1] in t {
      MatchExact(t, words, n + 1);
    } else {
      forall k | n < k <= |words| ensures words[..k] !in t {
        assert words[..k][..n + 1] == words[..n + 1];
        if words[..k] in t {
          ClosedPrefix(t, words[..k], n + 1);
        }
      }
    }
  }

  /** The lookup stops at the longest prefix of the words that is a prefix of a registered command. */
  lemma LookupIsLongest(regs: seq<Reg>, words: seq<string>, k: nat)
    requires 1 <= k <= |words|
    ensures k <= Match(Run(regs), words, 0) <==> Reaches(regs, words[..k])
  {
    var t, m := Run(regs), Match(Run(regs), words, 0);
    RunExact(regs);
    MatchExact(t, words, 0);
    if k <= m {
      ClosedPrefix(t, words[..m], k);
      assert words[..m][..k] == words[..k];
    }
  }

  // ---------------------------------------------------------------- executing a line

  function CutAll(words: seq<string>): (names: seq<string>)
    ensures |names| == |words| && forall k | 0 <= k < |names| :: names[k] == Cut(words[k])
  {
    seq(|words|, k requires 0 <= k < |words| => Cut(words[k]))
  }

  /** The words of a line as the tree knows them. */
  function Names(line: string): seq<string> {
    CutAll(Words(line))
  }

  function ArgsFrom(line: string, n: nat): Option<string> {
    if n < |Words(line)| then Some(line[Spans(line, 0)[n].from..]) else None
  }

  datatype Outcome = NoSuchCommand | Incomplete | Called(func: nat, args: Option<string>) | Sent(line: string)

  function Executed(t: Tree, line: string, connected: bool): Outcome
    requires Closed(t)
  {
    var words := Names(line);
    var n := Match(t, words, 0);
    MatchExact(t, words, 0);
    if n == 0 then NoSuchCommand
    else
      var info := t[words[..n]];
      if info.func.None? then Incomplete
      else if info.isRmt && connected then Sent(line)
      else Called(info.func.value, ArgsFrom(line, n))
  }

  /** A registered command followed by arguments that lead no deeper into the tree: its function gets the
      arguments, from the first argument word on to the end of the line. */
  lemma CommandGetsItsArguments(regs: seq<Reg>, i: nat, command: string, args: string, connected: bool)
    requires First(regs, Names(command), i) && regs[i].path == Names(command) && regs[i].info.func.Some?
    requires Words(command) != [] && (args == [] || Blank(args[0]))
    requires Words(args) != [] ==> !Reaches(regs, Names(command) + [Names(args)[0]])
    requires !(regs[i].info.isRmt && connected)
    ensures Closed(Run(regs))
    ensures Executed(Run(regs), command + args, connected) == Called(regs[i].info.func.value, ArgsFrom(args, 0))
    ensures ArgsFrom(args, 0).Some? ==> Words(ArgsFrom(args, 0).value) == Words(args)
  {
    hide Spans, Match, Reaches, ArgsFrom, First, Words, Names, Closed, Run;
    NamesAppend(command, args);
    FirstMade(regs, Names(command), i);
    MatchEnds(regs, Names(command + args), |Words(command)|);
    ArgsAppend(command, args);
  }

  lemma MatchEnds(regs: seq<Reg>, words: seq<string>, n: nat)
    requires 1 <= n <= |words| && Reaches(regs, words[..n]) && (n < |words| ==> !Reaches(regs, words[..n + 1]))
    ensures Match(Run(regs), words, 0) == n
  {
    LookupIsLongest(regs, words, n);
    if n < |words| {
      LookupIsLongest(regs, words, n + 1);
    }
  }

  lemma FirstMade(regs: seq<Reg>, p: seq<string>, i: int)
    requires First(regs, p, i) && p != []
    ensures Closed(Run(regs)) && Reaches(regs, p) && p in Run(regs) && 0 <= i < |regs| && Run(regs)[p] == Made(regs[i], p)
  {
    RunExact(regs);
  }

  lemma NamesAppend(command: string, args: string)
    requires args == [] || Blank(args[0])
    ensures Names(command + args) == Names(command) + Names(args)
    ensures Names(command + args)[..|Words(command)|] == Names(command)
    ensures |Names(command)| == |Words(command)| && |Names(command + args)| == |Words(command)| + |Words(args)|
    ensures Words(args) == [] <==> |Names(command + args)| == |Words(command)|
    ensures Words(args) != [] ==> |Names(args)| > 0 && Names(command + args)[..|Words(command)| + 1] == Names(command) + [Names(args)[0]]
  {
    hide Spans, Words;
    WordsAppend(command, args);
  }

  lemma ArgsAppend(command: string, args: string)
    requires args == [] || Blank(args[0])
    ensures ArgsFrom(command + args, |Words(command)|) == ArgsFrom(args, 0)
    ensures ArgsFrom(args, 0).Some? ==> Words(ArgsFrom(args, 0).value) == Words(args)
  {
    hide Spans;
    WordsAppend(command, args);
    SpansPrefix(command, args, 0);
    SpansShift(command, args, 0);
    if Words(args) != [] {
      WordsFrom(args, 0);
      var from := Spans(args, 0)[0].from;
      assert Spans(command + args, 0)[|Words(command)|].from == |command| + from;
      assert (command + args)[|command| + from..] == args[from..];
    }
  }

  lemma {:induction false} FirstExists(regs: seq<Reg>, p: seq<string>) returns (i: nat)
    requires Reaches(regs, p)
    ensures First(regs, p, i)
  {
    var n := |regs| - 1;
    if Reaches(regs[..n], p) {
      i := FirstExists(regs[..n], p);
    } else {
      i := n;
      assert forall j | 0 <= j < n :: regs[..n][j] == regs[j];
    }
  }

  /** What the line's words lead to: the longest path of them that some command begins with, `n` words long,
      and the first registration through it. */
  ghost predicate LeadsTo(regs: seq<Reg>, words: seq<string>, n: nat, i: int) {
    && 1 <= n <= |words| && First(regs, words[..n], i)
    && forall m | n < m <= |words| :: !Reaches(regs, words[..m])
  }

  /** Every line: an unknown first word is no such command; otherwise the longest path decides, by what its
      first registration made of it. */
  lemma EveryOutcome(regs: seq<Reg>, line: string, connected: bool)
    ensures Closed(Run(regs))
    ensures var words := Names(line);
            Executed(Run(regs), line, connected) == NoSuchCommand <==> words == [] || !Reaches(regs, words[..1])
    ensures forall n: nat, i: int | LeadsTo(regs, Names(line), n, i) ::
              var outcome, command := Executed(Run(regs), line, connected), regs[i].path == Names(line)[..n] && regs[i].info.func.Some?;
              && (outcome == Incomplete <==> !command)
              && (outcome == Sent(line) <==> command && regs[i].info.isRmt && connected)
              && (outcome.Sent? ==> outcome.line == line)
              && (outcome.Called? <==> command && !(regs[i].info.isRmt && connected))
              && (outcome.Called? ==> outcome.func == regs[i].info.func.value && outcome.args == ArgsFrom(line, n))
  {
    hide Words, Names, Match, ArgsFrom;
    RunExact(regs);
    var words := Names(line);
    if words != [] {
      LookupIsLongest(regs, words, 1);
    }
    MatchExact(Run(regs), words, 0);
    forall n: nat, i: int | LeadsTo(regs, words, n, i) ensures Match(Run(regs), words, 0) == n && Run(regs)[words[..n]] == Made(regs[i], words[..n]) {
      FirstMade(regs, words[..n], i);
      MatchEnds(regs, words, n);
    }
  }

  /** A line that begins a command leads somewhere. */
  lemma SomethingLeads(regs: seq<Reg>, words: seq<string>) returns (n: nat, i: int)
    requires words != [] && Reaches(regs, words[..1])
    ensures LeadsTo(regs, words, n, i)
  {
    n := Match(Run(regs), words, 0);
    LookupIsLongest(regs, words, 1);
    LookupIsLongest(regs, words, n);
    i := FirstExists(regs, words[..n]);
    forall m | n < m <= |words| ensures !Reaches(regs, words[..m]) {
      LookupIsLongest(regs, words, m);
    }
  }

  /** What a function is handed: the line from the start of word `n` on, and nothing when there is no such word. */
  lemma ArgumentText(line: string, n: nat)
    ensures ArgsFrom(line, n).None? <==> |Words(line)| <= n
    ensures ArgsFrom(line, n).Some? ==>
              var args := ArgsFrom(line, n).value;
              && args != [] && !Blank(args[0]) && Words(args) == Words(line)[n..]
              && |args| <= |line| && line[|line| - |args|..] == args
  {
    if n < |Words(line)| {
      WordsFrom(line, n);
      SpansAreTheWords(line, 0);
    }
  }
}
