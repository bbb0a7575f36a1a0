/** The command tree as the command interface grows it: nodes with a list of subcommands each, new ones
    put in front, proved to be the map of CommandPaths. */
module CommandTree {
  import opened Options
  import opened WordSplit
  import opened CommandPaths

  class CommandNode {
    const name: string
    var func: Option<nat>
    var doc: Option<string>
    var nargs: int
    const isRmt: bool
    const cmdType: int
    var subcmd: CommandNode?
    var next: CommandNode?

    ghost function AsInfo(): Info
      reads `func, `doc, `nargs
    {
      Info(func, doc, nargs, isRmt, cmdType)
    }

    constructor (name: string, isRmt: bool, cmdType: int, next: CommandNode?)
      ensures this.name == name && AsInfo() == Info(None, None, 0, isRmt, cmdType) && subcmd == null && this.next == next
    {
      this.name, this.isRmt, this.cmdType, this.next := name, isRmt, cmdType, next;
      func, doc, nargs, subcmd := None, None, 0, null;
    }
  }

  ghost function Node(w: seq<CommandNode>, k: int): CommandNode? {
    if 0 <= k < |w| then w[k] else null
  }

  ghost predicate Chain(head: CommandNode?, w: seq<CommandNode>)
    reads w`next
  {
    head == Node(w, 0) && forall k | 0 <= k < |w| :: w[k].next == Node(w, k + 1)
  }

  lemma ChainNil()
    ensures Chain(null, [])
  {
  }

  lemma ChainPush(q: CommandNode, w: seq<CommandNode>)
    requires Chain(q.next, w)
    ensures Chain(q, [q] + w)
  {
    var all := [q] + w;
    forall k | 0 <= k < |all| ensures all[k].next == Node(all, k + 1) {
      if k > 0 { assert w[k - 1].next == Node(w, k); }
    }
  }

  type Nodes = map<seq<string>, CommandNode>
  type Kids = map<seq<string>, seq<CommandNode>>

  ghost function Below(p: seq<string>, node: CommandNode): seq<string> {
    p + [node.name]
  }

  /** The `k`th subcommand of `p` is the node one word further. */
  ghost predicate KidOk(nodes: Nodes, kids: Kids, p: seq<string>, k: nat) {
    p in kids && k < |kids[p]| && Below(p, kids[p][k]) in nodes && nodes[Below(p, kids[p][k])] == kids[p][k]
  }

  /** The node at `q` is named by its last word and is a subcommand of the node at the path before that. */
  ghost predicate ParentOk(nodes: Nodes, kids: Kids, q: seq<string>) {
    q in nodes && (q != [] ==> Parent(q) in kids && nodes[q] in kids[Parent(q)] && nodes[q].name == q[|q| - 1])
  }

  /** Different paths, different nodes; a node's list of subcommands is the nodes one word further. */
  ghost predicate Shape(nodes: Nodes, kids: Kids) {
    && [] in nodes && kids.Keys == nodes.Keys
    && (forall p, q | p in nodes && q in nodes :: p != q ==> nodes[p] != nodes[q])
    && (forall p, k | p in kids && 0 <= k < |kids[p]| :: KidOk(nodes, kids, p, k))
    && (forall q | q in nodes :: ParentOk(nodes, kids, q))
  }

  lemma ShapeFind(nodes: Nodes, kids: Kids, p: seq<string>, word: string)
    requires Shape(nodes, kids) && p + [word] in nodes
    ensures p in kids && exists k :: 0 <= k < |kids[p]| && kids[p][k].name == word
  {
    assert ParentOk(nodes, kids, p + [word]) && Parent(p + [word]) == p;
  }

  lemma ShapeChild(nodes: Nodes, kids: Kids, p: seq<string>, k: nat)
    requires Shape(nodes, kids) && p in kids && k < |kids[p]|
    ensures p + [kids[p][k].name] in nodes && nodes[p + [kids[p][k].name]] == kids[p][k]
  {
    assert KidOk(nodes, kids, p, k);
  }

  lemma ShapeGrows(nodes: Nodes, kids: Kids, p: seq<string>, q: CommandNode)
    requires Shape(nodes, kids) && p in nodes && Below(p, q) !in nodes && q !in nodes.Values
    ensures p in kids && Shape(nodes[Below(p, q) := q], kids[p := [q] + kids[p]][Below(p, q) := []])
  {
    hide KidOk, ParentOk;
    var path := Below(p, q);
    var ns, ks := nodes[path := q], kids[p := [q] + kids[p]][path := []];
    assert path != p && Parent(path) == p && path != [];
    forall o, k | o in ks && 0 <= k < |ks[o]| ensures KidOk(ns, ks, o, k) {
      KidStays(nodes, kids, p, q, o, k);
    }
    forall o | o in ns ensures ParentOk(ns, ks, o) {
      ParentStays(nodes, kids, p, q, o);
    }
  }

  lemma KidStays(nodes: Nodes, kids: Kids, p: seq<string>, q: CommandNode, o: seq<string>, k: nat)
    requires p in kids && p in nodes && Below(p, q) !in nodes && Below(p, q) !in kids
    requires o in kids && forall j | 0 <= j < |kids[o]| :: KidOk(nodes, kids, o, j)
    requires var ks := kids[p := [q] + kids[p]][Below(p, q) := []]; k < |ks[o]|
    ensures KidOk(nodes[Below(p, q) := q], kids[p := [q] + kids[p]][Below(p, q) := []], o, k)
  {
    var ks := kids[p := [q] + kids[p]][Below(p, q) := []];
    if o == p {
      if k > 0 {
        assert ks[o][k] == kids[p][k - 1] && KidOk(nodes, kids, p, k - 1);
      }
    } else {
      assert KidOk(nodes, kids, o, k);
    }
  }

  lemma ParentStays(nodes: Nodes, kids: Kids, p: seq<string>, q: CommandNode, o: seq<string>)
    requires p in kids && Below(p, q) !in nodes && Below(p, q) !in kids && (o == Below(p, q) || ParentOk(nodes, kids, o))
    ensures ParentOk(nodes[Below(p, q) := q], kids[p := [q] + kids[p]][Below(p, q) := []], o)
  {
    assert Parent(Below(p, q)) == p;
  }

  /** Subcommands are nodes of the tree. */
  ghost predicate KidsIn(nodes: Nodes, kids: Kids, p: seq<string>) {
    p in kids && forall k | 0 <= k < |kids[p]| :: kids[p][k] in nodes.Values
  }

  lemma ShapeKids(nodes: Nodes, kids: Kids)
    requires Shape(nodes, kids)
    ensures forall p | p in nodes :: KidsIn(nodes, kids, p)
  {
    forall p, k | p in kids && 0 <= k < |kids[p]| ensures kids[p][k] in nodes.Values {
      assert KidOk(nodes, kids, p, k);
    }
  }

  ghost predicate Listed(nodes: Nodes, all: seq<CommandNode>) {
    (forall p | p in nodes :: nodes[p] in all) && forall o | o in all :: o in nodes.Values
  }

  lemma ListedGrows(nodes: Nodes, all: seq<CommandNode>, path: seq<string>, q: CommandNode)
    requires Listed(nodes, all) && path !in nodes
    ensures Listed(nodes[path := q], all + [q])
  {
    var ns := nodes[path := q];
    assert ns[path] == q;
    forall o | o in all ensures o in ns.Values {
      var p :| p in nodes && nodes[p] == o;
      assert ns[p] == o;
    }
  }

  lemma OnlyRoot(r: CommandNode)
    ensures Shape(map[[] := r], map[[] := []]) && Listed(map[[] := r], [r]) && KidsIn(map[[] := r], map[[] := []], [])
  {
    var nodes: Nodes := map[[] := r];
    assert nodes[[]] == r;
  }

  class CommandTree {
    const root: CommandNode
    ghost var nodes: Nodes               // the node at every path, the root at the empty one
    ghost var kids: Kids                 // every node's subcommands, the newest first
    ghost var all: seq<CommandNode>      // every node

    ghost predicate Linked()
      reads `nodes, `kids, `all, all`subcmd, all`next
    {
      Listed(nodes, all) && Shape(nodes, kids) && nodes[[]] == root && forall p | p in nodes :: KidsIn(nodes, kids, p) && Chain(nodes[p].subcmd, kids[p])
    }

    ghost function AsTree(): Tree
      requires Listed(nodes, all)
      reads `nodes, `all, all`func, all`doc, all`nargs
    {
      map p | p in nodes && p != [] :: nodes[p].AsInfo()
    }

    constructor ()
      ensures Linked() && Listed(nodes, all) && AsTree() == map[] && fresh(root) && all == [root]
    {
      hide KidOk, ParentOk, Chain, Listed, Shape;
      var r := new CommandNode("", false, 0, null);
      root := r;
      nodes, kids, all := map[[] := r], map[[] := []], [r];
      ChainNil();
      OnlyRoot(r);
      new;
      assert AsTree().Keys == {};
    }

    lemma Ready(p: seq<string>)
      requires Linked() && p in nodes
      ensures Listed(nodes, all) && Shape(nodes, kids) && p in kids && Chain(nodes[p].subcmd, kids[p])
    {
    }

    /** The subcommand of that name, if the node has one. */
    method FindChild(ptr: CommandNode, word: string, ghost p: seq<string>) returns (q: CommandNode?)
      requires Linked() && p in nodes && ptr == nodes[p]
      ensures if q == null then p + [word] !in nodes else p + [word] in nodes && q == nodes[p + [word]]
    {
      hide Shape, Linked;
      Ready(p);
      ghost var w, k := kids[p], 0;
      if p + [word] in nodes {
        ShapeFind(nodes, kids, p, word);
      }
      q := ptr.subcmd;
      while q != null
        invariant 0 <= k <= |w| && q == Node(w, k)
        invariant forall j | 0 <= j < k :: w[j].name != word
        decreases |w| - k
      {
        if word == q.name {
          ShapeChild(nodes, kids, p, k);
          return q;
        }
        q := q.next;
        k := k + 1;
      }
    }

    /** Makes a bare node and puts it in front of the others below `ptr`. */
    method AddChild(ptr: CommandNode, word: string, isRmt: bool, cmdType: int, ghost p: seq<string>) returns (q: CommandNode)
      requires Linked() && p in nodes && ptr == nodes[p] && p + [word] !in nodes
      modifies `nodes, `kids, `all, ptr`subcmd
      ensures Linked() && Listed(nodes, all) && fresh(q) && all == old(all) + [q] && nodes == old(nodes)[p + [word] := q]
      ensures AsTree() == old(AsTree())[p + [word] := Info(None, None, 0, isRmt, cmdType)]
    {
      hide Shape, Linked, AsTree, Node;
      Ready(p);
      q := new CommandNode(word, isRmt, cmdType, ptr.subcmd);
      ChainPush(q, kids[p]);
      ShapeGrows(nodes, kids, p, q);
      ptr.subcmd := q;
      nodes := nodes[p + [word] := q];
      kids := kids[p := [q] + kids[p]][p + [word] := []];
      all := all + [q];
      LinkedGrows(p, q);
      TreeGrows(p + [word], q);
    }

    method FindOrAdd(ptr: CommandNode, word: string, rmt: bool, cmdType: int, ghost p: seq<string>) returns (q: CommandNode, found: bool)
      requires Linked() && Listed(nodes, all) && p in nodes && ptr == nodes[p]
      modifies `nodes, `kids, `all, ptr`subcmd
      ensures Linked() && Listed(nodes, all) && found == (p + [word] in old(AsTree()))
      ensures p + [word] in nodes && nodes[p + [word]] == q && (!found ==> q.AsInfo() == Info(None, None, 0, rmt, cmdType))
      ensures forall o | o in all :: o in old(all) || fresh(o)
      ensures q in all && (!found ==> fresh(q))
      ensures AsTree() == if found then old(AsTree()) else old(AsTree())[p + [word] := Info(None, None, 0, rmt, cmdType)]
    {
      hide Linked, AsTree;
      TreeAt();
      var child := FindChild(ptr, word, p);
      found := child != null;
      if found {
        q := child;
      } else {
        q := AddChild(ptr, word, rmt, cmdType, p);
        TreeAt();
      }
    }

    /** Registers a command: finds or makes a node for every word; only a new last node becomes a command. */
    method AddCommand(cmd: string, rmt: bool, func: Option<nat>, doc: Option<string>, args: int, cmdType: int) returns (ok: bool)
      requires Linked()
      modifies this, all
      ensures Linked() && Listed(nodes, all) && (forall o | o in all :: o in old(all) || fresh(o))
      ensures (AsTree(), ok) == Registered(old(AsTree()), Reg(Names(cmd), Info(func, doc, args, rmt, cmdType)))
    {
      hide Linked, AsTree, Grown, Listed, Registered, Words, Names, Cut, Closed, Bare;
      RootAt();
      ghost var path, t, info := Names(cmd), AsTree(), Info(func, doc, args, rmt, cmdType);
      TreeClosed();
      NothingNamed(t, info);
      BareIs(info);
      NamesCount(cmd);
      var wds := NofWords(cmd);
      var ptr, level := root, 1;
      ghost var p: seq<string> := [];
      while level <= wds
        invariant wds == |path| && 1 <= level <= wds + 1 && (level <= wds || wds == 0) && p == path[..level - 1]
        invariant Linked() && Listed(nodes, all) && p in nodes && nodes[p] == ptr && AsTree() == Grown(t, p, Bare(info))
        invariant ptr in all && forall o | o in all :: o in old(all) || fresh(o)
      {
        var nth := Nthword(cmd, level);
        NameAt(cmd, level);
        GrownAlong(t, path, Bare(info), level);
        ghost var p' := p + [nth.value];
        var q, found := FindOrAdd(ptr, nth.value, rmt, cmdType, p);
        if level == wds {
          if found {
            FoundAlready(t, path, info);
            return false;
          } else {
            NotFound(t, path, info);
            SetInfo(q, path, func, doc, args);
            return true;
          }
        } else {
          ptr := q;
        }
        p := p';
        level := level + 1;
      }
      return false;
    }

    /** The node at the longest prefix of the words that has one, and how many words that is. */
    method FindMatchAsPossible(text: string) returns (fptr: CommandNode?, mcnt: nat)
      requires Linked() && Listed(nodes, all)
      ensures mcnt == Match(AsTree(), Names(text), 0) && (fptr == null <==> mcnt == 0)
      ensures mcnt > 0 ==> Names(text)[..mcnt] in nodes && fptr == nodes[Names(text)[..mcnt]]
    {
      hide Linked, AsTree, Listed, Words, Names, Cut;
      RootAt();
      NamesCount(text);
      ghost var t, words := AsTree(), Names(text);
      var ptr: CommandNode? := root;
      var i := 1;
      fptr, mcnt := null, 0;
      ghost var p: seq<string> := [];
      while ptr != null
        invariant 1 <= i <= |words| + 1 && p == words[..i - 1] && p in nodes && nodes[p] == ptr
        invariant mcnt == i - 1 && (if i == 1 then fptr == null else fptr == ptr)
        invariant Match(t, words, 0) == Match(t, words, i - 1)
        decreases |words| - i
      {
        var word := Nthword(text, i);
        if word == None {
          break;
        }
        NameAt(text, i);
        ptr := FindChild(ptr, word.value, p);
        InTree(p + [word.value]);
        if ptr != null {
          p := p + [word.value];
          fptr := ptr;
          mcnt := i;
        } else {
          break;
        }
        i := i + 1;
      }
    }

    lemma InTree(p: seq<string>)
      requires Linked() && Listed(nodes, all) && p != []
      ensures p in AsTree() <==> p in nodes
      ensures p in nodes ==> AsTree()[p] == nodes[p].AsInfo()
    {
    }

    /** Calls the function of the command found with the rest of the line, or hands the line to the
        service when the command is remote and the service is connected. */
    method ExecuteLine(cmd: string, connected: bool) returns (outcome: Outcome)
      requires Linked() && Listed(nodes, all)
      ensures Closed(AsTree()) && outcome == Executed(AsTree(), cmd, connected)
    {
      hide Linked, AsTree, Listed, Words, Names, Cut, Closed, Match, Spans;
      TreeClosed();
      var command, i := FindMatchAsPossible(cmd);
      if command == null {
        return NoSuchCommand;
      }
      InTree(Names(cmd)[..i]);
      if command.func == None {
        return Incomplete;
      } else if !command.isRmt || !connected {
        var args := Nthwordptr(cmd, i + 1);
        return Called(command.func.value, args);
      } else {
        return Sent(cmd);
      }
    }

    lemma RootAt()
      requires Linked()
      ensures Listed(nodes, all) && [] in nodes && nodes[[]] == root && root in all
    {
    }

    lemma NamesCount(line: string)
      ensures |Names(line)| == |Words(line)|
    {
    }

    lemma NameAt(line: string, level: nat)
      requires 1 <= level <= |Names(line)|
      ensures level <= |Words(line)| && Names(line)[..level - 1] + [Cut(Words(line)[level - 1])] == Names(line)[..level]
      ensures level == |Names(line)| ==> Names(line)[..level] == Names(line) && Names(line)[..level - 1] == Parent(Names(line))
    {
    }

    lemma NothingNamed(t: Tree, info: Info)
      ensures Registered(t, Reg([], info)) == (t, false) && Grown(t, [], Bare(info)) == t
    {
    }

    lemma BareIs(info: Info)
      ensures Bare(info) == Info(None, None, 0, info.isRmt, info.cmdType)
    {
    }

    method SetInfo(q: CommandNode, ghost path: seq<string>, func: Option<nat>, doc: Option<string>, args: int)
      requires Linked() && path in nodes && path != [] && nodes[path] == q && q.AsInfo() == Info(None, None, 0, q.isRmt, q.cmdType)
      modifies q`func, q`doc, q`nargs
      ensures Linked() && AsTree() == old(AsTree())[path := Info(func, doc, args, q.isRmt, q.cmdType)]
    {
      hide Linked, AsTree;
      TreeAt();
      OtherNodes(path);
      if doc.Some? {
        q.doc := doc;
      }
      q.func := func;
      q.nargs := args;
      TreeSet(path);
    }

    lemma OtherNodes(path: seq<string>)
      requires Linked() && path in nodes
      ensures Listed(nodes, all) && forall p | p in nodes && p != path :: nodes[p] != nodes[path]
    {
    }

    /** One node's command changed, and the tree with it. */
    twostate lemma TreeSet(path: seq<string>)
      requires Listed(nodes, all) && nodes == old(nodes) && all == old(all) && path in nodes && path != []
      requires forall p | p in nodes && p != path :: nodes[p].AsInfo() == old(nodes[p].AsInfo())
      ensures AsTree() == old(AsTree())[path := nodes[path].AsInfo()]
    {
    }

    lemma TreeAt()
      requires Linked()
      ensures Listed(nodes, all) && [] in nodes && nodes[[]] == root && root in all
      ensures forall p :: p in AsTree() <==> p in nodes && p != []
      ensures forall p | p in AsTree() :: AsTree()[p] == nodes[p].AsInfo()
    {
    }

    lemma TreeClosed()
      requires Linked()
      ensures Closed(AsTree())
    {
      forall p | p in AsTree() ensures |p| > 1 ==> Parent(p) in AsTree() {
        assert ParentOk(nodes, kids, p);
      }
    }

    twostate lemma LinkedGrows(p: seq<string>, new q: CommandNode)
      requires old(Linked()) && p in old(nodes) && Below(p, q) !in old(nodes)
      requires nodes == old(nodes)[Below(p, q) := q] && p in old(kids) && kids == old(kids)[p := [q] + old(kids)[p]][Below(p, q) := []]
      requires all == old(all) + [q] && Shape(nodes, kids) && q.subcmd == null && old(nodes)[p].subcmd == q && Chain(q, kids[p])
      requires forall o | o in old(nodes) && o != p :: old(nodes)[o].subcmd == old(nodes[o].subcmd)
      requires forall o | o in old(nodes).Values :: o.next == old(o.next)
      ensures Linked()
    {
      hide KidOk, ParentOk, Node;
      ChainNil();
      ShapeKids(nodes, kids);
      ListedGrows(old(nodes), old(all), Below(p, q), q);
      hide Listed;
      assert Below(p, q) != [];
      forall o | o in nodes ensures o in kids && Chain(nodes[o].subcmd, kids[o]) {
        if o != p && o != Below(p, q) {
          assert old(Chain(nodes[o].subcmd, kids[o]));
          assert KidsIn(old(nodes), old(kids), o);
        }
      }
    }

    twostate lemma TreeGrows(path: seq<string>, new q: CommandNode)
      requires all == old(all) + [q] && Listed(old(nodes), old(all)) && path !in old(nodes) && path != [] && nodes == old(nodes)[path := q]
      requires forall o | o in old(nodes) :: old(nodes)[o].AsInfo() == old(nodes[o].AsInfo())
      ensures Listed(nodes, all) && AsTree() == old(AsTree())[path := q.AsInfo()]
    {
      ListedGrows(old(nodes), old(all), path, q);
    }
  }

  /** One call of cli_addcmd. */
  datatype Registration = Registration(cmd: string, rmt: bool, func: Option<nat>, doc: Option<string>, args: int, cmdType: int)

  function RegOf(r: Registration): Reg {
    Reg(Names(r.cmd), Info(r.func, r.doc, r.args, r.rmt, r.cmdType))
  }

  function RegsOf(rs: seq<Registration>): (regs: seq<Reg>)
    ensures |regs| == |rs| && forall k | 0 <= k < |rs| :: regs[k] == RegOf(rs[k])
  {
    seq(|rs|, k requires 0 <= k < |rs| => RegOf(rs[k]))
  }

  lemma RegsOfNext(rs: seq<Registration>, i: nat)
    requires i < |rs|
    ensures Run(RegsOf(rs[..i + 1])) == Registered(Run(RegsOf(rs[..i])), RegOf(rs[i])).0
  {
    var regs := RegsOf(rs[..i + 1]);
    assert regs[..i] == RegsOf(rs[..i]);
  }

  /** The tree after any registrations is the one they make, and every line is executed by it. */
  method RegisterAndExecute(rs: seq<Registration>, line: string, connected: bool) returns (tree: CommandTree, outcome: Outcome)
    ensures tree.Linked() && Listed(tree.nodes, tree.all) && tree.AsTree() == Run(RegsOf(rs))
    ensures Closed(Run(RegsOf(rs))) && outcome == Executed(Run(RegsOf(rs)), line, connected)
  {
    hide CommandTree.Linked, CommandTree.AsTree, Registered, Listed, Names, Closed, Executed;
    tree := new CommandTree();
    tree.RootAt();
    for i := 0 to |rs|
      invariant fresh(tree) && (forall k | 0 <= k < |tree.all| :: fresh(tree.all[k])) && tree.Linked() && Listed(tree.nodes, tree.all) && tree.AsTree() == Run(RegsOf(rs[..i]))
    {
      ghost var was := tree.all;
      var _ := tree.AddCommand(rs[i].cmd, rs[i].rmt, rs[i].func, rs[i].doc, rs[i].args, rs[i].cmdType);
      assert forall k | 0 <= k < |tree.all| :: tree.all[k] in was ==> exists j :: 0 <= j < |was| && was[j] == tree.all[k];
      tree.RootAt();
      RegsOfNext(rs, i);
    }
    assert rs[..|rs|] == rs;
    outcome := tree.ExecuteLine(line, connected);
  }
}
