/** Which nodes get a history: two parallel lists, cleaned in place. */
module Historizing {

  type NodeId = nat

  /** A reference as browsing a node reports it. */
  datatype Ref = Ref(target: NodeId, isInverse: bool, organizes: bool)

  /** The nodes of the server are the keys of `refs`; the rank witnesses that no folder contains itself. */
  datatype Server = Server(refs: map<NodeId, seq<Ref>>, variables: set<NodeId>, rank: map<NodeId, nat>)

  datatype VariableSetup = VariableSetup(variableId: NodeId, historizing: string)

  datatype FolderSetup = FolderSetup(folderId: NodeId, historizing: string)

  /** One place of the two lists. */
  datatype Entry = Entry(node: NodeId, setup: string)

  predicate Followed(s: Server, r: Ref) { !r.isInverse && r.target in s.refs }

  ghost predicate Acyclic(s: Server) {
    && s.rank.Keys == s.refs.Keys
    && forall n, k :: n in s.refs && 0 <= k < |s.refs[n]| && Followed(s, s.refs[n][k]) && s.refs[n][k].organizes ==>
         s.rank[s.refs[n][k].target] < s.rank[n]
  }

  // ---------------------------------------------------------------- variables below a folder

  /** What the reference k of a node leads to; nested folders come before their own node. */
  function FromRef(s: Server, n: NodeId, k: nat): seq<NodeId>
    requires Acyclic(s) && n in s.refs && k < |s.refs[n]|
    decreases s.rank[n], k
  {
    var r := s.refs[n][k];
    if !Followed(s, r) then []
    else
      (if r.organizes then Below(s, r.target, |s.refs[r.target]|) else []) +
      (if r.target in s.variables then [r.target] else [])
  }

  /** What the first k references of a node lead to. */
  function Below(s: Server, n: NodeId, k: nat): seq<NodeId>
    requires Acyclic(s) && n in s.refs && k <= |s.refs[n]|
    decreases s.rank[n], k
  {
    if k == 0 then [] else Below(s, n, k - 1) + FromRef(s, n, k - 1)
  }

  /** A node, then folders one inside the other, then a variable of the last one. */
  ghost predicate Chain(s: Server, path: seq<NodeId>) {
    && |path| >= 2 && path[|path| - 1] in s.variables
    && forall i :: 0 <= i < |path| - 1 ==> path[i] in s.refs && Step(s, path[i], path[i + 1], i + 2 < |path|)
  }

  ghost predicate Step(s: Server, from: NodeId, to: NodeId, nested: bool)
    requires from in s.refs
  {
    exists k :: 0 <= k < |s.refs[from]| && StepAt(s, s.refs[from][k], to, nested)
  }

  predicate StepAt(s: Server, r: Ref, to: NodeId, nested: bool) {
    Followed(s, r) && r.target == to && (nested ==> r.organizes)
  }

  lemma {:induction false} BelowHasChain(s: Server, n: NodeId, k: nat, v: NodeId) returns (path: seq<NodeId>)
    requires Acyclic(s) && n in s.refs && k <= |s.refs[n]| && v in Below(s, n, k)
    ensures Chain(s, path) && path[0] == n && path[|path| - 1] == v
    decreases s.rank[n], k
  {
    var r := s.refs[n][k - 1];
    if v in Below(s, n, k - 1) {
      path := BelowHasChain(s, n, k - 1, v);
    } else if r.organizes && v in Below(s, r.target, |s.refs[r.target]|) {
      var rest := BelowHasChain(s, r.target, |s.refs[r.target]|, v);
      path := [n] + rest;
      assert StepAt(s, r, rest[0], true);
      assert forall i :: 0 < i < |path| ==> path[i] == rest[i - 1];
      assert Step(s, n, path[1], true);
    } else {
      path := [n, v];
      assert StepAt(s, r, v, false);
    }
  }

  lemma {:induction false} BelowGrows(s: Server, n: NodeId, k: nat, m: nat, v: NodeId)
    requires Acyclic(s) && n in s.refs && k <= m <= |s.refs[n]| && v in Below(s, n, k)
    ensures v in Below(s, n, m)
    decreases m
  {
    if k < m { BelowGrows(s, n, k, m - 1, v); }
  }

  lemma {:induction false} ChainIsBelow(s: Server, path: seq<NodeId>)
    requires Acyclic(s) && Chain(s, path)
    ensures path[0] in s.refs && path[|path| - 1] in Below(s, path[0], |s.refs[path[0]]|)
    decreases |path|
  {
    var n, v := path[0], path[|path| - 1];
    assert n in s.refs && Step(s, n, path[1], 2 < |path|);
    var k :| 0 <= k < |s.refs[n]| && StepAt(s, s.refs[n][k], path[1], 2 < |path|);
    if |path| > 2 {
      var rest := path[1..];
      forall i | 0 <= i < |rest| - 1 ensures rest[i] in s.refs && Step(s, rest[i], rest[i + 1], i + 2 < |rest|) {
        assert path[i + 1] in s.refs && Step(s, path[i + 1], path[i + 2], i + 3 < |path|);
      }
      ChainIsBelow(s, rest);
    }
    assert v in Below(s, n, k + 1);
    BelowGrows(s, n, k + 1, |s.refs[n]|, v);
  }

  // ---------------------------------------------------------------- lists of entries

  function Zip(nodes: seq<NodeId>, setups: seq<string>): (entries: seq<Entry>)
    requires |nodes| == |setups|
    ensures |entries| == |nodes| && forall i :: 0 <= i < |nodes| ==> entries[i] == Entry(nodes[i], setups[i])
  {
    if nodes == [] then [] else [Entry(nodes[0], setups[0])] + Zip(nodes[1..], setups[1..])
  }

  /** The same setup for several nodes. */
  function With(nodes: seq<NodeId>, setup: string): (entries: seq<Entry>)
    ensures |entries| == |nodes| && forall i :: 0 <= i < |nodes| ==> entries[i] == Entry(nodes[i], setup)
  {
    if nodes == [] then [] else [Entry(nodes[0], setup)] + With(nodes[1..], setup)
  }

  function Listed(s: Server, variables: seq<VariableSetup>): seq<Entry> {
    if variables == [] then []
    else if variables[0].variableId in s.refs then
      [Entry(variables[0].variableId, variables[0].historizing)] + Listed(s, variables[1..])
    else Listed(s, variables[1..])
  }

  function InFolders(s: Server, folders: seq<FolderSetup>): seq<Entry>
    requires Acyclic(s)
  {
    if folders == [] then []
    else (if folders[0].folderId in s.refs
          then With(Below(s, folders[0].folderId, |s.refs[folders[0].folderId]|), folders[0].historizing) else []) +
         InFolders(s, folders[1..])
  }

  function Without(entries: seq<Entry>, node: NodeId): (r: seq<Entry>)
    ensures |r| <= |entries|
  {
    if entries == [] then []
    else if entries[0].node == node then Without(entries[1..], node)
    else [entries[0]] + Without(entries[1..], node)
  }

  /** Of several entries for a node, the first one. */
  function KeepFirst(entries: seq<Entry>): seq<Entry>
    decreases |entries|
  {
    if entries == [] then [] else [entries[0]] + KeepFirst(Without(entries[1..], entries[0].node))
  }

  function Complete(entries: seq<Entry>, names: seq<string>): seq<Entry> {
    if entries == [] then []
    else (if entries[0].setup in names then [entries[0]] else []) + Complete(entries[1..], names)
  }

  ghost predicate Distinct(entries: seq<Entry>) {
    forall i, j :: 0 <= i < j < |entries| ==> entries[i].node != entries[j].node
  }

  function Erased(entries: seq<Entry>, j: nat): seq<Entry>
    requires j < |entries|
  {
    entries[..j] + entries[j + 1..]
  }

  lemma {:induction false} WithoutConcat(a: seq<Entry>, b: seq<Entry>, node: NodeId)
    ensures Without(a + b, node) == Without(a, node) + Without(b, node)
  {
    if a == [] {
      assert a + b == b;
    } else {
      WithoutConcat(a[1..], b, node);
      assert (a + b)[0] == a[0] && (a + b)[1..] == a[1..] + b;
      Assoc([a[0]], Without(a[1..], node), Without(b, node));
    }
  }

  lemma Assoc(a: seq<Entry>, b: seq<Entry>, c: seq<Entry>)
    ensures (a + b) + c == a + (b + c)
  {
  }

  lemma WithoutSplit(entries: seq<Entry>, j: nat, node: NodeId)
    requires j < |entries|
    ensures var pre, post := Without(entries[..j], node), Without(entries[j + 1..], node);
      && Without(Erased(entries, j), node) == pre + post
      && Without(entries, node) == if entries[j].node == node then pre + post else pre + ([entries[j]] + post)
  {
    hide Without;
    WithoutConcat(entries[..j], entries[j + 1..], node);
    WithoutConcat(entries[..j], entries[j..], node);
    assert entries[..j] + entries[j..] == entries;
    WithoutHead(entries[j..], node);
    assert entries[j..][1..] == entries[j + 1..];
  }

  lemma WithoutHead(entries: seq<Entry>, node: NodeId)
    requires entries != []
    ensures Without(entries, node) ==
            if entries[0].node == node then Without(entries[1..], node) else [entries[0]] + Without(entries[1..], node)
  {
  }

  /** Where two entries for another node end up when those for one node are left out. */
  lemma WithoutPlaces(entries: seq<Entry>, i: nat, j: nat, node: NodeId) returns (i': nat, j': nat)
    requires i < j < |entries| && entries[i].node == entries[j].node != node
    ensures var r := Without(entries, node);
      && i' < j' < |r| && r[i'] == entries[i] && r[j'] == entries[j]
      && Without(Erased(entries, j), node) == Erased(r, j')
  {
    hide Without, Erased;
    var pre := entries[..j];
    WithoutSplit(entries, j, node);
    WithoutSplit(pre, i, node);
    i', j' := |Without(pre[..i], node)|, |Without(pre, node)|;
    assert pre[i] == entries[i];
    Middle(Without(pre[..i], node), entries[i], Without(pre[i + 1..], node));
    Middle(Without(pre, node), entries[j], Without(entries[j + 1..], node));
  }

  lemma Middle(a: seq<Entry>, x: Entry, b: seq<Entry>)
    ensures var all := a + ([x] + b);
      && |a| < |all| && all[|a|] == x && Erased(all, |a|) == a + b
      && forall k :: 0 <= k < |a| ==> all[k] == a[k]
  {
    var all := a + ([x] + b);
    assert all[..|a|] == a && all[|a| + 1..] == b;
  }

  /** Erasing a later entry for the same node does not change which entries are the first ones. */
  lemma {:induction false} ErasingDuplicate(entries: seq<Entry>, i: nat, j: nat)
    requires i < j < |entries| && entries[i].node == entries[j].node
    ensures KeepFirst(Erased(entries, j)) == KeepFirst(entries)
    decreases |entries|
  {
    var first, rest := entries[0].node, entries[1..];
    assert Erased(entries, j)[0] == entries[0] && Erased(entries, j)[1..] == Erased(rest, j - 1);
    if first == entries[j].node {
      WithoutSplit(rest, j - 1, first);
    } else {
      var i', j' := WithoutPlaces(rest, i - 1, j - 1, first);
      ErasingDuplicate(Without(rest, first), i', j');
    }
  }

  lemma {:induction false} WithoutNothing(entries: seq<Entry>, node: NodeId)
    requires forall i :: 0 <= i < |entries| ==> entries[i].node != node
    ensures Without(entries, node) == entries
  {
    if entries != [] { WithoutNothing(entries[1..], node); }
  }

  lemma {:induction false} DistinctIsKept(entries: seq<Entry>)
    requires Distinct(entries)
    ensures KeepFirst(entries) == entries
    decreases |entries|
  {
    if entries != [] {
      WithoutNothing(entries[1..], entries[0].node);
      DistinctIsKept(entries[1..]);
    }
  }

  lemma {:induction false} ErasingIncomplete(entries: seq<Entry>, names: seq<string>, j: nat)
    requires j < |entries| && entries[j].setup !in names
    ensures Complete(Erased(entries, j), names) == Complete(entries, names)
  {
    if j == 0 {
      assert Erased(entries, j) == entries[1..];
    } else {
      assert Erased(entries, j)[0] == entries[0] && Erased(entries, j)[1..] == Erased(entries[1..], j - 1);
      ErasingIncomplete(entries[1..], names, j - 1);
    }
  }

  lemma {:induction false} CompleteIsKept(entries: seq<Entry>, names: seq<string>)
    requires forall i :: 0 <= i < |entries| ==> entries[i].setup in names
    ensures Complete(entries, names) == entries
  {
    if entries != [] { CompleteIsKept(entries[1..], names); }
  }

  // ---------------------------------------------------------------- the lists in place

  class HistorizingLists {
    var historizingNodes: seq<NodeId>
    var historizingSetup: seq<string>

    ghost predicate Parallel() reads this { |historizingNodes| == |historizingSetup| }

    ghost function Entries(): seq<Entry>
      reads this
      requires Parallel()
    {
      Zip(historizingNodes, historizingSetup)
    }

    constructor ()
      ensures Parallel() && Entries() == []
    {
      historizingNodes, historizingSetup := [], [];
    }

    method Append(node: NodeId, setup: string)
      requires Parallel()
      modifies this
      ensures Parallel() && Entries() == old(Entries()) + [Entry(node, setup)]
    {
      historizingNodes := historizingNodes + [node];
      historizingSetup := historizingSetup + [setup];
    }

    method Erase(j: nat)
      requires Parallel() && j < |historizingNodes|
      modifies this
      ensures Parallel() && Entries() == Erased(old(Entries()), j)
      ensures |historizingNodes| == old(|historizingNodes|) - 1
    {
      historizingNodes := historizingNodes[..j] + historizingNodes[j + 1..];
      historizingSetup := historizingSetup[..j] + historizingSetup[j + 1..];
    }

    method AddVariableHistorizing(s: Server, variables: seq<VariableSetup>)
      requires Parallel()
      modifies this
      ensures Parallel() && Entries() == old(Entries()) + Listed(s, variables)
    {
      hide Entries;
      assert variables[0..] == variables;
      for i := 0 to |variables|
        invariant Parallel()
        invariant Entries() + Listed(s, variables[i..]) == old(Entries()) + Listed(s, variables)
      {
        assert variables[i..][1..] == variables[i + 1..];
        var v := variables[i];
        if v.variableId in s.refs {
          Assoc(Entries(), [Entry(v.variableId, v.historizing)], Listed(s, variables[i + 1..]));
          Append(v.variableId, v.historizing);
        }
      }
    }

    /** Calls GetChildVariables for every reference of a node. */
    method ForEachChild(s: Server, n: NodeId, history: string)
      requires Parallel() && Acyclic(s) && n in s.refs
      modifies this
      ensures Parallel() && Entries() == old(Entries()) + With(Below(s, n, |s.refs[n]|), history)
      decreases s.rank[n], |s.refs[n]| + 1
    {
      hide Entries, FromRef, With, Followed;
      ghost var start := Entries();
      for k := 0 to |s.refs[n]|
        invariant Parallel() && Entries() == start + With(Below(s, n, k), history)
      {
        GetChildVariables(s, n, k, history);
        WithConcat(Below(s, n, k), FromRef(s, n, k), history);
        Assoc(start, With(Below(s, n, k), history), With(FromRef(s, n, k), history));
      }
    }

    method GetChildVariables(s: Server, n: NodeId, k: nat, history: string)
      requires Parallel() && Acyclic(s) && n in s.refs && k < |s.refs[n]|
      modifies this
      ensures Parallel() && Entries() == old(Entries()) + With(FromRef(s, n, k), history)
      decreases s.rank[n], k
    {
      var r := s.refs[n][k];
      if r.isInverse { return; }
      if r.target !in s.refs { return; }
      ghost var nested := if r.organizes then Below(s, r.target, |s.refs[r.target]|) else [];
      if r.organizes { ForEachChild(s, r.target, history); }
      assert Entries() == old(Entries()) + With(nested, history);
      if r.target in s.variables {
        Append(r.target, history);
        WithConcat(nested, [r.target], history);
      }
    }

    method AddFolderHistorizing(s: Server, folders: seq<FolderSetup>)
      requires Parallel() && Acyclic(s)
      modifies this
      ensures Parallel() && Entries() == old(Entries()) + InFolders(s, folders)
    {
      hide Entries, With, Below, Acyclic;
      assert folders[0..] == folders;
      for i := 0 to |folders|
        invariant Parallel()
        invariant Entries() + InFolders(s, folders[i..]) == old(Entries()) + InFolders(s, folders)
      {
        assert folders[i..][1..] == folders[i + 1..];
        if folders[i].folderId in s.refs { ForEachChild(s, folders[i].folderId, folders[i].historizing); }
      }
    }

    /** Restarts after every pass that erased something. */
    method CheckHistorizingNodes()
      requires Parallel()
      modifies this
      ensures Parallel() && Entries() == KeepFirst(old(Entries())) && Distinct(Entries())
    {
      var repeat := true;
      while repeat
        invariant Parallel() && KeepFirst(Entries()) == KeepFirst(old(Entries()))
        invariant !repeat ==> Distinct(Entries())
        decreases |historizingNodes| + if repeat then 1 else 0
      {
        repeat := Pass();
      }
      DistinctIsKept(Entries());
    }

    /** One pass over all pairs; tells whether it erased anything. */
    method Pass() returns (repeat: bool)
      requires Parallel()
      modifies this
      ensures Parallel() && KeepFirst(Entries()) == KeepFirst(old(Entries()))
      ensures if repeat then |historizingNodes| < old(|historizingNodes|) else Distinct(Entries())
      ensures |historizingNodes| <= old(|historizingNodes|)
    {
      repeat := false;
      var i := 0;
      while i < |historizingNodes|
        invariant Parallel() && KeepFirst(Entries()) == KeepFirst(old(Entries()))
        invariant |historizingNodes| <= old(|historizingNodes|)
        invariant repeat <==> |historizingNodes| < old(|historizingNodes|)
        invariant !repeat ==> forall a, b :: 0 <= a < i && a < b < |historizingNodes| ==>
                                               historizingNodes[a] != historizingNodes[b]
        decreases |historizingNodes| - i
      {
        var j := i + 1;
        while j < |historizingNodes|
          invariant i < j
          invariant forall b :: i < b < j && b < |historizingNodes| ==> historizingNodes[i] != historizingNodes[b]
        {
          if historizingNodes[i] == historizingNodes[j] {
            ErasingDuplicate(Entries(), i, j);
            Erase(j);
            repeat := true;
            break;
          }
          j := j + 1;
        }
        i := i + 1;
      }
    }

    ghost predicate AllIn(names: seq<string>, n: nat)
      reads this
      requires n <= |historizingSetup|
    {
      forall a :: 0 <= a < n ==> historizingSetup[a] in names
    }

    /** Erases the first entry from a position on that has no setup; tells whether and where there was one. */
    method ErasePass(names: seq<string>, position: nat) returns (repeat: bool, i: nat)
      requires Parallel() && position <= |historizingNodes| && AllIn(names, position)
      modifies this
      ensures Parallel() && i <= |historizingNodes| && AllIn(names, i)
      ensures Complete(Entries(), names) == Complete(old(Entries()), names)
      ensures |historizingNodes| == old(|historizingNodes|) - if repeat then 1 else 0
      ensures !repeat ==> i == |historizingNodes|
    {
      repeat, i := false, position;
      while i < |historizingNodes|
        invariant position <= i <= |historizingNodes| && Parallel() && AllIn(names, i)
        invariant Entries() == old(Entries()) && |historizingNodes| == old(|historizingNodes|)
      {
        var found := Contains(names, historizingSetup[i]);
        if !found {
          ErasingIncomplete(Entries(), names, i);
          Erase(i);
          repeat := true;
          return;
        }
        i := i + 1;
      }
    }

    /** Restarts at the place where it erased something. */
    method RemoveNodesWithIncompleteHistorizingSetup(names: seq<string>)
      requires Parallel()
      modifies this
      ensures Parallel() && Entries() == Complete(old(Entries()), names)
    {
      var repeat, position: nat := true, 0;
      while repeat
        invariant Parallel() && Complete(Entries(), names) == Complete(old(Entries()), names)
        invariant position <= |historizingNodes|
        invariant AllIn(names, position)
        invariant !repeat ==> AllIn(names, |historizingNodes|)
        decreases |historizingNodes| + if repeat then 1 else 0
      {
        repeat, position := ErasePass(names, position);
      }
      CompleteIsKept(Entries(), names);
    }

    method AddHistorizingNodes(
        s: Server, variables: seq<VariableSetup>, folders: seq<FolderSetup>, names: seq<string>)
      requires Parallel() && Entries() == [] && Acyclic(s)
      modifies this
      ensures Parallel()
      ensures Entries() == Complete(KeepFirst(Listed(s, variables) + InFolders(s, folders)), names)
      ensures Distinct(Entries())
      ensures forall e :: e in Entries() <==> Configured(s, variables, folders, e.node, e.setup) && e.setup in names
    {
      hide Configured, Complete, KeepFirst, Listed, InFolders, Distinct;
      AddVariableHistorizing(s, variables);
      AddFolderHistorizing(s, folders);
      assert Entries() == Listed(s, variables) + InFolders(s, folders);
      CheckHistorizingNodes();
      RemoveNodesWithIncompleteHistorizingSetup(names);
      AssignmentMeans(Listed(s, variables) + InFolders(s, folders), names);
      forall e ensures e in Entries() <==> Configured(s, variables, folders, e.node, e.setup) && e.setup in names {
        HistoryFollowsConfiguration(s, variables, folders, names, e);
      }
    }
  }

  method Contains(names: seq<string>, name: string) returns (found: bool)
    ensures found == (name in names)
  {
    found := false;
    for j := 0 to |names|
      invariant !found && name !in names[..j]
    {
      if name == names[j] { return true; }
    }
  }

  lemma WithConcat(a: seq<NodeId>, b: seq<NodeId>, setup: string)
    ensures With(a + b, setup) == With(a, setup) + With(b, setup)
  {
  }

  // ---------------------------------------------------------------- what the result means

  /** The setup that is listed first for a node. */
  ghost predicate FirstSetup(all: seq<Entry>, e: Entry) {
    exists i :: 0 <= i < |all| && all[i] == e && forall j :: 0 <= j < i ==> all[j].node != e.node
  }

  lemma {:induction false} WithoutMembers(all: seq<Entry>, node: NodeId, e: Entry)
    ensures e in Without(all, node) <==> e in all && e.node != node
  {
    if all != [] { WithoutMembers(all[1..], node, e); }
  }

  lemma {:induction false} WithoutFirstSetup(all: seq<Entry>, node: NodeId, e: Entry)
    requires e.node != node
    ensures FirstSetup(Without(all, node), e) <==> FirstSetup(all, e)
  {
    hide FirstSetup;
    if all != [] {
      WithoutFirstSetup(all[1..], node, e);
      FirstSetupStep(all, e);
      if all[0].node == node {
        assert Without(all, node) == Without(all[1..], node);
      } else {
        assert Without(all, node)[1..] == Without(all[1..], node);
        FirstSetupStep(Without(all, node), e);
      }
    }
  }

  lemma FirstSetupStep(all: seq<Entry>, e: Entry)
    requires all != []
    ensures FirstSetup(all, e) <==> all[0] == e || (all[0].node != e.node && FirstSetup(all[1..], e))
  {
    if all[0] != e && all[0].node != e.node {
      if i :| 0 <= i < |all| && all[i] == e && forall j :: 0 <= j < i ==> all[j].node != e.node {
        assert all[1..][i - 1] == e;
      }
      if i :| 0 <= i < |all[1..]| && all[1..][i] == e && forall j :: 0 <= j < i ==> all[1..][j].node != e.node {
        assert all[i + 1] == e;
        assert forall j :: 0 < j < i + 1 ==> all[j] == all[1..][j - 1];
      }
    }
  }

  lemma {:induction false} KeepFirstMeans(all: seq<Entry>, e: Entry)
    ensures e in KeepFirst(all) <==> FirstSetup(all, e)
    decreases |all|
  {
    if all != [] {
      hide Without, FirstSetup;
      var rest := Without(all[1..], all[0].node);
      FirstSetupStep(all, e);
      KeepFirstMeans(rest, e);
      if e.node != all[0].node {
        WithoutFirstSetup(all[1..], all[0].node, e);
      } else if e in KeepFirst(rest) {
        WithoutMembers(all[1..], all[0].node, e);
      }
    }
  }

  lemma {:induction false} KeepFirstIsDistinct(all: seq<Entry>)
    ensures Distinct(KeepFirst(all))
    decreases |all|
  {
    if all != [] {
      var node, rest := all[0].node, Without(all[1..], all[0].node);
      KeepFirstIsDistinct(rest);
      forall j | 0 <= j < |KeepFirst(rest)| ensures KeepFirst(rest)[j].node != node {
        KeepFirstMeans(rest, KeepFirst(rest)[j]);
        WithoutMembers(all[1..], node, KeepFirst(rest)[j]);
      }
    }
  }

  lemma {:induction false} CompleteMembers(entries: seq<Entry>, names: seq<string>)
    ensures forall e :: e in Complete(entries, names) <==> e in entries && e.setup in names
    ensures Distinct(entries) ==> Distinct(Complete(entries, names))
  {
    if entries != [] {
      CompleteMembers(entries[1..], names);
      if Distinct(entries) {
        assert Distinct(entries[1..]);
        var rest := Complete(entries[1..], names);
        forall j | 0 <= j < |rest| ensures rest[j].node != entries[0].node {
          assert rest[j] in entries[1..];
        }
      }
    }
  }

  /**
   * The final assignment: no node twice, only configured setups, and a node carries the setup listed first for
   * it.  A node whose first setup is not configured is gone, even if a later one would be.
   */
  lemma AssignmentMeans(all: seq<Entry>, names: seq<string>)
    ensures Distinct(Complete(KeepFirst(all), names))
    ensures forall e :: e in Complete(KeepFirst(all), names) <==> FirstSetup(all, e) && e.setup in names
  {
    KeepFirstIsDistinct(all);
    CompleteMembers(KeepFirst(all), names);
    forall e ensures e in Complete(KeepFirst(all), names) <==> FirstSetup(all, e) && e.setup in names {
      KeepFirstMeans(all, e);
    }
  }

  // ---------------------------------------------------------------- in terms of the configuration

  /** The node exists, and setting i is the first one for it. */
  ghost predicate FirstSetting(s: Server, variables: seq<VariableSetup>, i: nat, node: NodeId) {
    && i < |variables| && variables[i].variableId == node && node in s.refs
    && forall j :: 0 <= j < i ==> variables[j].variableId != node
  }

  /** The folder exists, and a chain of folders leads from it to the node, which is a variable. */
  ghost predicate Reaches(s: Server, folder: NodeId, node: NodeId) {
    folder in s.refs && exists path :: Chain(s, path) && path[0] == folder && path[|path| - 1] == node
  }

  /** Folder i is the first one that leads to the node. */
  ghost predicate FirstFolder(s: Server, folders: seq<FolderSetup>, i: nat, node: NodeId) {
    && i < |folders| && Reaches(s, folders[i].folderId, node)
    && forall j :: 0 <= j < i ==> !Reaches(s, folders[j].folderId, node)
  }

  /** The first setting for the node has this setup. */
  ghost predicate SettingIs(s: Server, variables: seq<VariableSetup>, node: NodeId, setup: string) {
    exists i: nat :: FirstSetting(s, variables, i, node) && variables[i].historizing == setup
  }

  ghost predicate HasSetting(s: Server, variables: seq<VariableSetup>, node: NodeId) {
    exists i: nat :: FirstSetting(s, variables, i, node)
  }

  /** The first folder that leads to the node has this setup. */
  ghost predicate FolderIs(s: Server, folders: seq<FolderSetup>, node: NodeId, setup: string) {
    exists i: nat :: FirstFolder(s, folders, i, node) && folders[i].historizing == setup
  }

  /** What the configuration says about a node: its own setting, or else the folder that it is in. */
  ghost predicate Configured(
      s: Server, variables: seq<VariableSetup>, folders: seq<FolderSetup>, node: NodeId, setup: string) {
    SettingIs(s, variables, node, setup) || (!HasSetting(s, variables, node) && FolderIs(s, folders, node, setup))
  }

  lemma FirstSettingLater(s: Server, variables: seq<VariableSetup>, i: nat, node: NodeId)
    requires variables != [] && variables[0].variableId != node
    ensures FirstSetting(s, variables, i + 1, node) <==> FirstSetting(s, variables[1..], i, node)
  {
    if FirstSetting(s, variables[1..], i, node) {
      assert forall j :: 0 < j < i + 1 ==> variables[j] == variables[1..][j - 1];
    }
  }

  lemma SettingStep(s: Server, variables: seq<VariableSetup>, node: NodeId, setup: string)
    requires variables != []
    ensures var v, rest := variables[0], variables[1..];
      && (SettingIs(s, variables, node, setup) <==>
            if v.variableId == node then node in s.refs && v.historizing == setup else SettingIs(s, rest, node, setup))
      && (HasSetting(s, variables, node) <==>
            if v.variableId == node then node in s.refs else HasSetting(s, rest, node))
  {
    if variables[0].variableId == node {
      assert node in s.refs ==> FirstSetting(s, variables, 0, node);
    } else {
      forall i: nat ensures FirstSetting(s, variables, i + 1, node) <==> FirstSetting(s, variables[1..], i, node) {
        FirstSettingLater(s, variables, i, node);
      }
      if i: nat :| FirstSetting(s, variables, i, node) && variables[i].historizing == setup {
        assert FirstSetting(s, variables[1..], i - 1, node);
      }
      if i: nat :| FirstSetting(s, variables, i, node) { assert FirstSetting(s, variables[1..], i - 1, node); }
      if i: nat :| FirstSetting(s, variables[1..], i, node) { assert FirstSetting(s, variables, i + 1, node); }
    }
  }

  lemma FirstFolderLater(s: Server, folders: seq<FolderSetup>, i: nat, node: NodeId)
    requires folders != [] && !Reaches(s, folders[0].folderId, node)
    ensures FirstFolder(s, folders, i + 1, node) <==> FirstFolder(s, folders[1..], i, node)
  {
    hide Reaches;
    if FirstFolder(s, folders[1..], i, node) {
      assert forall j :: 0 < j < i + 1 ==> folders[j] == folders[1..][j - 1];
    }
  }

  lemma FolderStep(s: Server, folders: seq<FolderSetup>, node: NodeId, setup: string)
    requires folders != []
    ensures FolderIs(s, folders, node, setup) <==>
            if Reaches(s, folders[0].folderId, node) then folders[0].historizing == setup
            else FolderIs(s, folders[1..], node, setup)
  {
    hide Reaches;
    if Reaches(s, folders[0].folderId, node) {
      assert FirstFolder(s, folders, 0, node);
    } else {
      forall i: nat ensures FirstFolder(s, folders, i + 1, node) <==> FirstFolder(s, folders[1..], i, node) {
        FirstFolderLater(s, folders, i, node);
      }
      if i: nat :| FirstFolder(s, folders, i, node) && folders[i].historizing == setup {
        assert FirstFolder(s, folders[1..], i - 1, node);
      }
    }
  }

  ghost predicate HasEntry(all: seq<Entry>, node: NodeId) { exists i :: 0 <= i < |all| && all[i].node == node }

  lemma HasEntryStep(all: seq<Entry>, node: NodeId)
    requires all != []
    ensures HasEntry(all, node) <==> all[0].node == node || HasEntry(all[1..], node)
  {
    if i :| 0 <= i < |all| && all[i].node == node && i > 0 { assert all[1..][i - 1].node == node; }
    if i :| 0 <= i < |all| - 1 && all[1..][i].node == node { assert all[i + 1].node == node; }
  }

  lemma {:induction false} FirstSetupConcat(a: seq<Entry>, b: seq<Entry>, e: Entry)
    ensures FirstSetup(a + b, e) <==> FirstSetup(a, e) || (!HasEntry(a, e.node) && FirstSetup(b, e))
    ensures HasEntry(a + b, e.node) <==> HasEntry(a, e.node) || HasEntry(b, e.node)
  {
    hide FirstSetup, HasEntry;
    if a == [] {
      assert a + b == b;
      NothingListed(e);
    } else {
      FirstSetupConcat(a[1..], b, e);
      assert (a + b)[0] == a[0] && (a + b)[1..] == a[1..] + b;
      FirstSetupStep(a + b, e);
      FirstSetupStep(a, e);
      HasEntryStep(a + b, e.node);
      HasEntryStep(a, e.node);
    }
  }

  lemma FirstOfOne(x: Entry, e: Entry)
    ensures FirstSetup([x], e) <==> x == e
    ensures HasEntry([x], e.node) <==> x.node == e.node
  {
    assert [x][0] == x;
  }

  /** The entries of the settings. */
  lemma {:induction false} ListedMeans(s: Server, variables: seq<VariableSetup>, e: Entry)
    ensures FirstSetup(Listed(s, variables), e) <==> SettingIs(s, variables, e.node, e.setup)
    ensures HasEntry(Listed(s, variables), e.node) <==> HasSetting(s, variables, e.node)
  {
    hide FirstSetup, HasEntry, SettingIs, HasSetting;
    if variables == [] {
      assert !FirstSetup([], e) && !HasEntry([], e.node) by { NothingListed(e); }
      assert !SettingIs(s, [], e.node, e.setup) && !HasSetting(s, [], e.node) by { NothingSet(s, e); }
    } else {
      var v := variables[0];
      ListedMeans(s, variables[1..], e);
      SettingStep(s, variables, e.node, e.setup);
      if v.variableId in s.refs {
        FirstOfOne(Entry(v.variableId, v.historizing), e);
        FirstSetupConcat([Entry(v.variableId, v.historizing)], Listed(s, variables[1..]), e);
      } else if v.variableId == e.node {
        NotThere(s, variables[1..], e);
      }
    }
  }

  lemma NothingListed(e: Entry)
    ensures !FirstSetup([], e) && !HasEntry([], e.node)
  {
  }

  lemma NothingSet(s: Server, e: Entry)
    ensures !SettingIs(s, [], e.node, e.setup) && !HasSetting(s, [], e.node)
  {
  }

  lemma NotThere(s: Server, variables: seq<VariableSetup>, e: Entry)
    requires e.node !in s.refs
    ensures !SettingIs(s, variables, e.node, e.setup) && !HasSetting(s, variables, e.node)
  {
  }

  lemma BelowIsReached(s: Server, folder: NodeId, node: NodeId)
    requires Acyclic(s) && folder in s.refs
    ensures node in Below(s, folder, |s.refs[folder]|) <==> Reaches(s, folder, node)
  {
    hide Acyclic, Below;
    if node in Below(s, folder, |s.refs[folder]|) {
      var path := BelowHasChain(s, folder, |s.refs[folder]|, node);
    }
    if Reaches(s, folder, node) {
      var path :| Chain(s, path) && path[0] == folder && path[|path| - 1] == node;
      ChainIsBelow(s, path);
    }
  }

  lemma FirstOfMany(nodes: seq<NodeId>, setup: string, e: Entry)
    ensures FirstSetup(With(nodes, setup), e) <==> e.node in nodes && e.setup == setup
    ensures HasEntry(With(nodes, setup), e.node) <==> e.node in nodes
  {
    if e.node in nodes {
      var i := FirstPlace(nodes, e.node);
      assert With(nodes, setup)[i].node == e.node;
    }
  }

  lemma {:induction false} FirstPlace(nodes: seq<NodeId>, node: NodeId) returns (i: nat)
    requires node in nodes
    ensures i < |nodes| && nodes[i] == node && forall j :: 0 <= j < i ==> nodes[j] != node
  {
    if nodes[0] == node {
      i := 0;
    } else {
      assert nodes == [nodes[0]] + nodes[1..];
      i := FirstPlace(nodes[1..], node);
      i := i + 1;
      assert forall j :: 0 < j < i ==> nodes[j] == nodes[1..][j - 1];
    }
  }

  /** The entries of the folders. */
  lemma {:induction false} InFoldersMeans(s: Server, folders: seq<FolderSetup>, e: Entry)
    requires Acyclic(s)
    ensures FirstSetup(InFolders(s, folders), e) <==> FolderIs(s, folders, e.node, e.setup)
  {
    hide Acyclic, FirstSetup, HasEntry, FolderIs, Reaches, Below;
    if folders == [] {
      assert !FirstSetup([], e) by { NothingListed(e); }
      assert !FolderIs(s, [], e.node, e.setup) by { NoFolder(s, e); }
    } else {
      var f := folders[0];
      InFoldersMeans(s, folders[1..], e);
      FolderStep(s, folders, e.node, e.setup);
      if f.folderId in s.refs {
        var below := Below(s, f.folderId, |s.refs[f.folderId]|);
        BelowIsReached(s, f.folderId, e.node);
        FirstOfMany(below, f.historizing, e);
        FirstSetupConcat(With(below, f.historizing), InFolders(s, folders[1..]), e);
      } else {
        assert !Reaches(s, f.folderId, e.node) by { NoSuchFolder(s, f.folderId, e.node); }
        assert [] + InFolders(s, folders[1..]) == InFolders(s, folders[1..]);
      }
    }
  }

  lemma NoFolder(s: Server, e: Entry)
    ensures !FolderIs(s, [], e.node, e.setup)
  {
  }

  lemma NoSuchFolder(s: Server, folder: NodeId, node: NodeId)
    requires folder !in s.refs
    ensures !Reaches(s, folder, node)
  {
  }

  /**
   * The final lists, in terms of the configuration: a node gets the setup of its first setting, or without one that of
   * the first folder that leads to it, provided that this setup is configured; and no other node is listed.
   */
  lemma HistoryFollowsConfiguration(
      s: Server, variables: seq<VariableSetup>, folders: seq<FolderSetup>, names: seq<string>, e: Entry)
    requires Acyclic(s)
    ensures var entries := Complete(KeepFirst(Listed(s, variables) + InFolders(s, folders)), names);
      e in entries <==> Configured(s, variables, folders, e.node, e.setup) && e.setup in names
  {
    hide Acyclic, FirstSetup, HasEntry, FolderIs, SettingIs, HasSetting, KeepFirst, Complete, Listed, InFolders,
         Distinct;
    AssignmentMeans(Listed(s, variables) + InFolders(s, folders), names);
    FirstSetupConcat(Listed(s, variables), InFolders(s, folders), e);
    ListedMeans(s, variables, e);
    InFoldersMeans(s, folders, e);
  }
}
