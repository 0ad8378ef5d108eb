/**
 Copying a folder with everything below it, except for methods: each folder of the source is created below the copy of
 its parent, and each variable is bound to its source.
 */
module FolderCopy {
  import opened FolderIndex

  datatype Component = Variable(name: string, source: string) | Method(name: string)

  /** A folder as browsing shows it: what it is called, its components and the folders it organizes. */
  datatype Layer = Layer(name: string, components: seq<Component>, folders: seq<NodeId>)

  /** A process variable of the adapter; its parent is null where the parent folder could not be created. */
  datatype ProcessVariable = ProcessVariable(parent: NodeId, name: string, source: string)

  /** The folder index with the ids in use, what browsing shows, and the variables of the adapter. */
  datatype World = World(tree: Tree, layers: map<NodeId, Layer>, variables: seq<ProcessVariable>)
  {
    ghost predicate Valid() {
      && Sound(tree)
      && (forall id :: id in layers ==> id in tree.nodes && id != Null && Usable(id))
      && (forall id, f :: id in layers && f in layers[id].folders ==> f in layers)
    }
  }

  /** The part of the server that is copied from: closed, and without folders that contain themselves. */
  datatype Source = Source(layers: map<NodeId, Layer>, rank: map<NodeId, nat>)
  {
    ghost predicate Valid() {
      rank.Keys == layers.Keys && forall id, k :: id in layers && 0 <= k < |layers[id].folders| ==> Child(id, k)
    }

    ghost predicate Child(id: NodeId, k: nat)
      requires id in layers && k < |layers[id].folders| && rank.Keys == layers.Keys
    {
      layers[id].folders[k] in layers && rank[layers[id].folders[k]] < rank[id]
    }
  }

  /** The source is part of the server. */
  ghost predicate Within(s: Source, w: World) {
    && s.Valid() && w.Valid()
    && (forall id :: id in s.layers ==> id in w.layers && w.layers[id] == s.layers[id])
  }

  /** The target is a folder of the server and not part of the source, or it is missing. */
  ghost predicate Outside(s: Source, w: World, target: NodeId) {
    Usable(target) && (target != Null ==> target in w.layers && target !in s.layers)
  }

  // ---------------------------------------------------------------- single steps

  function AddVariable(w: World, target: NodeId, c: Component): World
    requires c.Variable?
  {
    var variables := w.variables + [ProcessVariable(target, c.name, c.source)];
    if target in w.layers then
      var l := w.layers[target];
      World(w.tree, w.layers[target := l.(components := l.components + [c])], variables)
    else w.(variables := variables)
  }

  /** Browsing shows the new folder below its parent. */
  function AddLayer(layers: map<NodeId, Layer>, target: NodeId, id: NodeId, name: string): map<NodeId, Layer> {
    (if target in layers then layers[target := layers[target].(folders := layers[target].folders + [id])] else layers)
    [id := Layer(name, [], [])]
  }

  /** createFolder of the folder index. */
  function CreateFolder(w: World, target: NodeId, name: string): (r: (World, NodeId))
    requires Usable(target)
    ensures Usable(r.1)
  {
    var (t, id) := CreateOne(w.tree, target, name);
    (World(t, if id == Null then w.layers else AddLayer(w.layers, target, id, name), w.variables), id)
  }

  // ---------------------------------------------------------------- the copy

  /** After the first k components of a layer. */
  function CopyComponents(w: World, components: seq<Component>, k: nat, target: NodeId): World
    requires k <= |components|
  {
    if k == 0 then w
    else
      var u := CopyComponents(w, components, k - 1, target);
      if components[k - 1].Variable? then AddVariable(u, target, components[k - 1]) else u
  }

  function HasMethod(components: seq<Component>, k: nat): bool
    requires k <= |components|
  {
    k > 0 && (components[k - 1].Method? || HasMethod(components, k - 1))
  }

  /** After the first k folders of a layer; also tells whether there was a method below them. */
  function CopyFolders(s: Source, w: World, layer: NodeId, k: nat, target: NodeId): (World, bool)
    requires s.Valid() && layer in s.layers && k <= |s.layers[layer].folders| && Usable(target)
    decreases s.rank[layer], k
  {
    if k == 0 then (w, false)
    else
      assert s.Child(layer, k - 1);
      var child := s.layers[layer].folders[k - 1];
      var (u, found) := CopyFolders(s, w, layer, k - 1, target);
      var (v, created) := CreateFolder(u, target, s.layers[child].name);
      var (x, below) := CopyLayer(s, v, child, created);
      (x, below || found)
  }

  function CopyLayer(s: Source, w: World, layer: NodeId, target: NodeId): (World, bool)
    requires s.Valid() && layer in s.layers && Usable(target)
    decreases s.rank[layer], |s.layers[layer].folders| + 1
  {
    var l := s.layers[layer];
    var u := CopyComponents(w, l.components, |l.components|, target);
    var (v, found) := CopyFolders(s, u, layer, |l.folders|, target);
    (v, found || HasMethod(l.components, |l.components|))
  }

  class AddressSpace {
    const index: UaAdapter
    var layers: map<NodeId, Layer>
    var variables: seq<ProcessVariable>

    ghost function View(): World reads this, index { World(index.View(), layers, variables) }

    constructor (index: UaAdapter)
      ensures this.index == index && View() == World(index.View(), map[], [])
    {
      this.index, layers, variables := index, map[], [];
    }

    method AddProcessVariable(target: NodeId, c: Component)
      requires c.Variable?
      modifies this
      ensures View() == AddVariable(old(View()), target, c)
    {
      variables := variables + [ProcessVariable(target, c.name, c.source)];
      if target in layers {
        var l := layers[target];
        layers := layers[target := l.(components := l.components + [c])];
      }
    }

    method AddFolder(target: NodeId, name: string) returns (created: NodeId)
      requires Usable(target)
      modifies this, index
      ensures (View(), created) == CreateFolder(old(View()), target, name)
    {
      created := index.CreateFolder(target, name);
      if created != Null { layers := AddLayer(layers, target, created, name); }
    }

    method DeepCopyHierarchicalLayer(ghost s: Source, layer: NodeId, target: NodeId) returns (foundMethod: bool)
      requires layer in s.layers && Within(s, View()) && Outside(s, View(), target)
      modifies this, index
      ensures (View(), foundMethod) == CopyLayer(s, old(View()), layer, target)
      ensures Within(s, View()) && old(layers.Keys) <= layers.Keys
      decreases s.rank[layer]
    {
      hide CreateFolder, AddVariable, Sound;
      ghost var w := View();
      // Both browse results are taken of a layer that the copy does not change.
      var components, folders := layers[layer].components, layers[layer].folders;
      foundMethod := CopyVariables(s, components, target);
      ghost var u, own := View(), foundMethod;
      for j := 0 to |folders|
        invariant Within(s, View()) && Outside(s, View(), target) && w.layers.Keys <= layers.Keys
        invariant View() == CopyFolders(s, u, layer, j, target).0
        invariant foundMethod == (CopyFolders(s, u, layer, j, target).1 || own)
      {
        assert s.Child(layer, j);
        assert layers[folders[j]] == s.layers[folders[j]];
        var name := layers[folders[j]].name;
        CreateFolderKeepsWithin(s, View(), target, name);
        var newRootFolder := AddFolder(target, name);
        var below := DeepCopyHierarchicalLayer(s, folders[j], newRootFolder);
        foundMethod := below || foundMethod;
      }
    }

    method CopyVariables(ghost s: Source, components: seq<Component>, target: NodeId) returns (foundMethod: bool)
      requires Within(s, View()) && Outside(s, View(), target)
      modifies this
      ensures View() == CopyComponents(old(View()), components, |components|, target)
      ensures foundMethod == HasMethod(components, |components|)
      ensures Within(s, View()) && layers.Keys == old(layers.Keys)
    {
      foundMethod := false;
      for j := 0 to |components|
        invariant View() == CopyComponents(old(View()), components, j, target)
        invariant Within(s, View()) && layers.Keys == old(layers.Keys)
        invariant foundMethod == HasMethod(components, j)
      {
        if components[j].Method? {
          foundMethod := true;
          continue;
        }
        AddVariableKeepsWithin(s, View(), target, components[j]);
        AddProcessVariable(target, components[j]);
      }
    }
  }

  lemma AddVariableKeepsWithin(s: Source, w: World, target: NodeId, c: Component)
    requires Within(s, w) && Outside(s, w, target) && c.Variable?
    ensures var u := AddVariable(w, target, c); Within(s, u) && u.layers.Keys == w.layers.Keys
  {
    hide Sound;
  }

  lemma CreateFolderKeepsWithin(s: Source, w: World, target: NodeId, name: string)
    requires Within(s, w) && Outside(s, w, target)
    ensures var (u, created) := CreateFolder(w, target, name);
      Within(s, u) && Outside(s, u, created) && w.layers.Keys <= u.layers.Keys
  {
    hide Sound;
    CreateFolderRefusedIff(w, target, name);
  }

  /** No folder is created exactly if there is no target, or the id derived from target and name is in use. */
  lemma CreateFolderRefusedIff(w: World, target: NodeId, name: string)
    requires w.Valid() && Usable(target)
    ensures var (u, id) := CreateFolder(w, target, name);
      && (id == Null <==> target == Null || ChildId(target, name) in w.tree.nodes)
      && (id != Null ==> id == ChildId(target, name) && id !in w.layers)
      && u.Valid()
      && u.tree.nodes == w.tree.nodes + if target == Null then {} else {ChildId(target, name)}
  {
    CreateOneKeepsSound(w.tree, target, name);
    if target != Null && FindEntry(w.tree.folders, target, name).Some? { EntryIsSound(w.tree, target, name); }
  }

  // ---------------------------------------------------------------- what a copy is

  /** The components without the methods. */
  function VariablesOf(components: seq<Component>, k: nat): seq<Component>
    requires k <= |components|
  {
    if k == 0 then []
    else VariablesOf(components, k - 1) + if components[k - 1].Variable? then [components[k - 1]] else []
  }

  function FolderName(s: Source, layer: NodeId, k: nat): string
    requires s.Valid() && layer in s.layers && k < |s.layers[layer].folders|
  {
    assert s.Child(layer, k);
    s.layers[s.layers[layer].folders[k]].name
  }

  /** The ids that the copies of the first k folders of a layer get. */
  function CopyIds(s: Source, layer: NodeId, copy: NodeId, k: nat): (ids: seq<NodeId>)
    requires s.Valid() && layer in s.layers && k <= |s.layers[layer].folders| && Usable(copy) && copy != Null
    ensures |ids| == k && forall j :: 0 <= j < k ==> ids[j] == ChildId(copy, FolderName(s, layer, j))
  {
    if k == 0 then [] else CopyIds(s, layer, copy, k - 1) + [ChildId(copy, FolderName(s, layer, k - 1))]
  }

  /** The ids of all folders of a copy, each before those below it. */
  function IdsBelow(s: Source, layer: NodeId, copy: NodeId, k: nat): seq<NodeId>
    requires s.Valid() && layer in s.layers && k <= |s.layers[layer].folders| && Usable(copy) && copy != Null
    decreases s.rank[layer], k
  {
    if k == 0 then []
    else
      assert s.Child(layer, k - 1);
      var child, id := s.layers[layer].folders[k - 1], ChildId(copy, FolderName(s, layer, k - 1));
      IdsBelow(s, layer, copy, k - 1) + ([id] + IdsBelow(s, child, id, |s.layers[child].folders|))
  }

  function AllIds(s: Source, layer: NodeId, copy: NodeId): seq<NodeId>
    requires s.Valid() && layer in s.layers && Usable(copy) && copy != Null
  {
    IdsBelow(s, layer, copy, |s.layers[layer].folders|)
  }

  /**
   * The folder `copy` has kept what it had and got the variables of the source layer, with the same process
   * variables behind them, and a copy of every folder of the layer, in the same order.
   */
  ghost predicate IsCopy(s: Source, m: map<NodeId, Layer>, layer: NodeId, copy: NodeId, had: Layer)
    requires s.Valid() && layer in s.layers && Usable(copy) && copy != Null
    decreases s.rank[layer], |s.layers[layer].folders| + 1
  {
    && copy in m && m[copy].name == had.name
    && m[copy].components == had.components + VariablesOf(s.layers[layer].components, |s.layers[layer].components|)
    && m[copy].folders == had.folders + CopyIds(s, layer, copy, |s.layers[layer].folders|)
    && AreCopies(s, m, layer, copy, |s.layers[layer].folders|)
  }

  ghost predicate AreCopies(s: Source, m: map<NodeId, Layer>, layer: NodeId, copy: NodeId, k: nat)
    requires s.Valid() && layer in s.layers && k <= |s.layers[layer].folders| && Usable(copy) && copy != Null
    decreases s.rank[layer], k
  {
    k == 0 ||
    (assert s.Child(layer, k - 1);
     var child, name := s.layers[layer].folders[k - 1], FolderName(s, layer, k - 1);
     AreCopies(s, m, layer, copy, k - 1) && IsCopy(s, m, child, ChildId(copy, name), Layer(name, [], [])))
  }

  /** Pairwise different ids that are not in use. */
  ghost predicate FreeIds(nodes: set<NodeId>, ids: seq<NodeId>) {
    && (forall i :: 0 <= i < |ids| ==> ids[i] !in nodes)
    && (forall i, j :: 0 <= i < j < |ids| ==> ids[i] != ids[j])
  }

  function SetOf(ids: seq<NodeId>): set<NodeId> { set id | id in ids }

  lemma FreeConcat(nodes: set<NodeId>, a: seq<NodeId>, b: seq<NodeId>)
    ensures FreeIds(nodes, a + b) <==> FreeIds(nodes, a) && FreeIds(nodes + SetOf(a), b)
  {
    var c := a + b;
    if FreeIds(nodes, c) {
      assert forall i :: 0 <= i < |a| ==> a[i] == c[i];
      forall j | 0 <= j < |b| ensures b[j] !in nodes + SetOf(a) {
        assert c[|a| + j] == b[j];
      }
      forall i, j | 0 <= i < j < |b| ensures b[i] != b[j] {
        assert c[|a| + i] == b[i] && c[|a| + j] == b[j];
      }
    }
    if FreeIds(nodes, a) && FreeIds(nodes + SetOf(a), b) {
      forall i, j | 0 <= i < j < |c| ensures c[i] != c[j] {
        if i < |a| <= j { assert c[i] in SetOf(a); }
      }
    }
  }

  lemma FreeCons(nodes: set<NodeId>, id: NodeId, ids: seq<NodeId>)
    ensures FreeIds(nodes, [id] + ids) <==> id !in nodes && FreeIds(nodes + {id}, ids)
  {
    FreeConcat(nodes, [id], ids);
    assert SetOf([id]) == {id};
  }

  // ---------------------------------------------------------------- ids below an id

  ghost predicate Deeper(base: NodeId, id: NodeId) {
    id.StringId? && (base.StringId? ==> |base.text| < |id.text|)
  }

  lemma {:induction false} IdsAreDeeper(s: Source, layer: NodeId, copy: NodeId, k: nat, id: NodeId)
    requires s.Valid() && layer in s.layers && k <= |s.layers[layer].folders| && Usable(copy) && copy != Null
    requires id in IdsBelow(s, layer, copy, k)
    ensures Deeper(copy, id)
    decreases s.rank[layer], k
  {
    hide ChildId, Usable, Deeper, FolderName;
    assert s.Child(layer, k - 1);
    var child, name := s.layers[layer].folders[k - 1], FolderName(s, layer, k - 1);
    var c := ChildId(copy, name);
    ChildIsDeeper(copy, name, id);
    IdsSplit(s, layer, copy, k, id);
    if id in IdsBelow(s, layer, copy, k - 1) {
      IdsAreDeeper(s, layer, copy, k - 1, id);
    } else if id != c {
      IdsAreDeeper(s, child, c, |s.layers[child].folders|, id);
    }
  }

  lemma ChildIsDeeper(base: NodeId, name: string, id: NodeId)
    requires Usable(base) && base != Null
    ensures Deeper(base, ChildId(base, name))
    ensures Deeper(ChildId(base, name), id) ==> Deeper(base, id)
  {
  }

  lemma IdsSplit(s: Source, layer: NodeId, copy: NodeId, k: nat, id: NodeId)
    requires s.Valid() && layer in s.layers && 0 < k <= |s.layers[layer].folders| && Usable(copy) && copy != Null
    requires s.Child(layer, k - 1)
    ensures var c := ChildId(copy, FolderName(s, layer, k - 1));
      id in IdsBelow(s, layer, copy, k) <==>
      id in IdsBelow(s, layer, copy, k - 1) || id == c || id in AllIds(s, s.layers[layer].folders[k - 1], c)
  {
    hide ChildId, Usable, FolderName;
  }

  lemma {:induction false} IdsOfFolder(s: Source, layer: NodeId, copy: NodeId, k: nat, j: nat, id: NodeId)
    requires s.Valid() && layer in s.layers && j < k <= |s.layers[layer].folders| && Usable(copy) && copy != Null
    requires s.Child(layer, j)
    requires var c := ChildId(copy, FolderName(s, layer, j));
      id == c || id in AllIds(s, s.layers[layer].folders[j], c)
    ensures id in IdsBelow(s, layer, copy, k)
  {
    hide ChildId, Usable, FolderName, IdsBelow, AllIds;
    assert s.Child(layer, k - 1);
    IdsSplit(s, layer, copy, k, id);
    if j < k - 1 { IdsOfFolder(s, layer, copy, k - 1, j, id); }
  }

  // ---------------------------------------------------------------- frames

  ghost predicate Closed(m: map<NodeId, Layer>) { forall id, f :: id in m && f in m[id].folders ==> f in m }

  ghost predicate KeepsOthers(m: map<NodeId, Layer>, n: map<NodeId, Layer>, target: NodeId) {
    forall id :: id in m && id != target ==> id in n && n[id] == m[id]
  }

  /** Changes at one folder outside, and new folders, neither make nor break a copy. */
  lemma {:induction false} CopyFrame(s: Source, m: map<NodeId, Layer>, n: map<NodeId, Layer>, layer: NodeId,
      copy: NodeId, had: Layer, target: NodeId)
    requires s.Valid() && layer in s.layers && Usable(copy) && copy != Null
    requires Closed(m) && KeepsOthers(m, n, target) && copy in m && copy != target
    requires target !in AllIds(s, layer, copy)
    ensures IsCopy(s, m, layer, copy, had) <==> IsCopy(s, n, layer, copy, had)
    decreases s.rank[layer], |s.layers[layer].folders| + 1
  {
    var k := |s.layers[layer].folders|;
    if m[copy].folders == had.folders + CopyIds(s, layer, copy, k) {
      ListedInside(m, copy, had.folders, CopyIds(s, layer, copy, k));
      CopiesFrame(s, m, n, layer, copy, k, target);
    }
  }

  ghost predicate AllIn(m: map<NodeId, Layer>, ids: seq<NodeId>) { forall j :: 0 <= j < |ids| ==> ids[j] in m }

  lemma ListedInside(m: map<NodeId, Layer>, id: NodeId, had: seq<NodeId>, ids: seq<NodeId>)
    requires Closed(m) && id in m && m[id].folders == had + ids
    ensures AllIn(m, ids)
  {
    forall j | 0 <= j < |ids| ensures ids[j] in m {
      assert m[id].folders[|had| + j] == ids[j];
    }
  }

  lemma IdsGrow(s: Source, layer: NodeId, copy: NodeId, k: nat, m: map<NodeId, Layer>)
    requires s.Valid() && layer in s.layers && 0 < k <= |s.layers[layer].folders| && Usable(copy) && copy != Null
    requires AllIn(m, CopyIds(s, layer, copy, k))
    ensures AllIn(m, CopyIds(s, layer, copy, k - 1)) && ChildId(copy, FolderName(s, layer, k - 1)) in m
  {
    hide ChildId, Usable, FolderName;
  }

  lemma {:induction false} CopiesFrame(s: Source, m: map<NodeId, Layer>, n: map<NodeId, Layer>, layer: NodeId,
      copy: NodeId, k: nat, target: NodeId)
    requires s.Valid() && layer in s.layers && k <= |s.layers[layer].folders| && Usable(copy) && copy != Null
    requires Closed(m) && KeepsOthers(m, n, target)
    requires AllIn(m, CopyIds(s, layer, copy, k))
    requires target !in IdsBelow(s, layer, copy, k)
    ensures AreCopies(s, m, layer, copy, k) <==> AreCopies(s, n, layer, copy, k)
    decreases s.rank[layer], k
  {
    hide *;
    SourceChild(s, layer, k);
    FrameStep(s, m, n, layer, copy, k);
    if k > 0 {
      var child, name := s.layers[layer].folders[k - 1], FolderName(s, layer, k - 1);
      StepInside(s, layer, copy, k, m, target);
      CopiesFrame(s, m, n, layer, copy, k - 1, target);
      CopyFrame(s, m, n, child, ChildId(copy, name), Layer(name, [], []), target);
    }
  }

  lemma SourceChild(s: Source, layer: NodeId, k: nat)
    requires s.Valid() && layer in s.layers && k <= |s.layers[layer].folders|
    ensures s.rank.Keys == s.layers.Keys
    ensures k > 0 ==>
      var child := s.layers[layer].folders[k - 1];
      s.Child(layer, k - 1) && child in s.layers && s.rank[child] < s.rank[layer]
  {
    assert k > 0 ==> s.Child(layer, k - 1);
  }

  lemma StepInside(s: Source, layer: NodeId, copy: NodeId, k: nat, m: map<NodeId, Layer>, target: NodeId)
    requires s.Valid() && layer in s.layers && 0 < k <= |s.layers[layer].folders| && Usable(copy) && copy != Null
    requires s.Child(layer, k - 1)
    requires AllIn(m, CopyIds(s, layer, copy, k)) && target !in IdsBelow(s, layer, copy, k)
    ensures var c := ChildId(copy, FolderName(s, layer, k - 1));
      && AllIn(m, CopyIds(s, layer, copy, k - 1)) && target !in IdsBelow(s, layer, copy, k - 1)
      && c in m && c != target && target !in AllIds(s, s.layers[layer].folders[k - 1], c)
  {
    hide ChildId, Usable, FolderName, IdsBelow, AllIds, AllIn, CopyIds, Source.Valid;
    IdsGrow(s, layer, copy, k, m);
    IdsSplit(s, layer, copy, k, target);
  }

  /** A folder more is a copy in both places or in neither. */
  lemma FrameStep(s: Source, m: map<NodeId, Layer>, n: map<NodeId, Layer>, layer: NodeId, copy: NodeId, k: nat)
    requires s.Valid() && layer in s.layers && k <= |s.layers[layer].folders| && Usable(copy) && copy != Null
    requires k > 0 ==> s.Child(layer, k - 1)
    ensures
      if k == 0 then AreCopies(s, m, layer, copy, k) && AreCopies(s, n, layer, copy, k)
      else
        var child, name := s.layers[layer].folders[k - 1], FolderName(s, layer, k - 1);
        var c, had := ChildId(copy, name), Layer(name, [], []);
        (AreCopies(s, m, layer, copy, k - 1) <==> AreCopies(s, n, layer, copy, k - 1)) &&
        (IsCopy(s, m, child, c, had) <==> IsCopy(s, n, child, c, had)) ==>
        (AreCopies(s, m, layer, copy, k) <==> AreCopies(s, n, layer, copy, k))
  {
    hide ChildId, Usable, FolderName, IsCopy, Source.Valid;
  }

  lemma CopiesStep(s: Source, m: map<NodeId, Layer>, layer: NodeId, copy: NodeId, k: nat)
    requires s.Valid() && layer in s.layers && 0 < k <= |s.layers[layer].folders| && Usable(copy) && copy != Null
    requires s.Child(layer, k - 1)
    ensures var child, name := s.layers[layer].folders[k - 1], FolderName(s, layer, k - 1);
      AreCopies(s, m, layer, copy, k) <==>
      AreCopies(s, m, layer, copy, k - 1) && IsCopy(s, m, child, ChildId(copy, name), Layer(name, [], []))
  {
    hide ChildId, Usable, FolderName, IsCopy;
  }

  /** Only the target and new folders differ, and the target keeps its name. */
  ghost predicate OnlyAdds(before: World, after: World, target: NodeId) {
    && before.Valid() && after.Valid() && before.tree.nodes <= after.tree.nodes
    && target in before.layers && target in after.layers
    && after.layers[target].name == before.layers[target].name
    && KeepsOthers(before.layers, after.layers, target)
  }

  lemma {:induction false} CopyComponentsFills(w: World, components: seq<Component>, k: nat, target: NodeId)
    requires w.Valid() && target in w.layers && k <= |components|
    ensures var u := CopyComponents(w, components, k, target);
      && OnlyAdds(w, u, target) && u.tree == w.tree
      && u.layers[target].components == w.layers[target].components + VariablesOf(components, k)
      && u.layers[target].folders == w.layers[target].folders
  {
    hide Sound;
    if k > 0 { CopyComponentsFills(w, components, k - 1, target); }
  }

  /** Without a target nothing changes but the list of variables. */
  lemma {:induction false} CopyToNowhere(s: Source, w: World, layer: NodeId)
    requires s.Valid() && layer in s.layers && Null !in w.layers
    ensures var v := CopyLayer(s, w, layer, Null).0; v.layers == w.layers && v.tree == w.tree
    decreases s.rank[layer], |s.layers[layer].folders| + 1
  {
    var l := s.layers[layer];
    ComponentsNowhere(w, l.components, |l.components|);
    FoldersNowhere(s, CopyComponents(w, l.components, |l.components|, Null), layer, |l.folders|);
  }

  lemma {:induction false} ComponentsNowhere(w: World, components: seq<Component>, k: nat)
    requires k <= |components| && Null !in w.layers
    ensures var v := CopyComponents(w, components, k, Null); v.layers == w.layers && v.tree == w.tree
  {
    if k > 0 { ComponentsNowhere(w, components, k - 1); }
  }

  lemma {:induction false} FoldersNowhere(s: Source, w: World, layer: NodeId, k: nat)
    requires s.Valid() && layer in s.layers && k <= |s.layers[layer].folders| && Null !in w.layers
    ensures var v := CopyFolders(s, w, layer, k, Null).0; v.layers == w.layers && v.tree == w.tree
    decreases s.rank[layer], k
  {
    if k > 0 {
      assert s.Child(layer, k - 1);
      FoldersNowhere(s, w, layer, k - 1);
      CopyToNowhere(s, CopyFolders(s, w, layer, k - 1, Null).0, s.layers[layer].folders[k - 1]);
    }
  }

  // ---------------------------------------------------------------- one folder more

  /**
   * Up to the first k folders: nothing else changed, at most k folders were added, and all of them were exactly
   * if their ids are free.
   */
  ghost predicate CopiedSoFar(s: Source, w: World, v: World, layer: NodeId, k: nat, target: NodeId)
    requires s.Valid() && layer in s.layers && k <= |s.layers[layer].folders| && Usable(target) && target != Null
  {
    && OnlyAdds(w, v, target)
    && v.layers[target].components == w.layers[target].components
    && |v.layers[target].folders| <= |w.layers[target].folders| + k
    && (v.layers[target].folders == w.layers[target].folders + CopyIds(s, layer, target, k) &&
        AreCopies(s, v.layers, layer, target, k) <==>
        FreeIds(w.tree.nodes, IdsBelow(s, layer, target, k)))
    && (FreeIds(w.tree.nodes, IdsBelow(s, layer, target, k)) ==>
        v.tree.nodes == w.tree.nodes + SetOf(IdsBelow(s, layer, target, k)))
  }

  /** The same for a whole layer. */
  ghost predicate Copied(s: Source, w: World, v: World, layer: NodeId, target: NodeId)
    requires s.Valid() && layer in s.layers && Usable(target) && target != Null
  {
    && OnlyAdds(w, v, target)
    && (IsCopy(s, v.layers, layer, target, w.layers[target]) <==> FreeIds(w.tree.nodes, AllIds(s, layer, target)))
    && (FreeIds(w.tree.nodes, AllIds(s, layer, target)) ==>
        v.tree.nodes == w.tree.nodes + SetOf(AllIds(s, layer, target)))
  }

  lemma FreeStep(s: Source, nodes: set<NodeId>, layer: NodeId, k: nat, target: NodeId)
    requires s.Valid() && layer in s.layers && k < |s.layers[layer].folders| && Usable(target) && target != Null
    requires s.Child(layer, k)
    ensures var child, c := s.layers[layer].folders[k], ChildId(target, FolderName(s, layer, k));
      var ids := IdsBelow(s, layer, target, k);
      && (FreeIds(nodes, IdsBelow(s, layer, target, k + 1)) <==>
          FreeIds(nodes, ids) && c !in nodes + SetOf(ids) &&
          FreeIds(nodes + SetOf(ids) + {c}, AllIds(s, child, c)))
      && SetOf(IdsBelow(s, layer, target, k + 1)) == SetOf(ids) + {c} + SetOf(AllIds(s, child, c))
  {
    hide FreeIds, ChildId, FolderName, Usable, SetOf, Source.Valid;
    var child, c := s.layers[layer].folders[k], ChildId(target, FolderName(s, layer, k));
    var ids, more := IdsBelow(s, layer, target, k), AllIds(s, child, c);
    assert IdsBelow(s, layer, target, k + 1) == ids + ([c] + more);
    FreeConcat(nodes, ids, [c] + more);
    FreeCons(nodes + SetOf(ids), c, more);
    SetOfStep(ids, c, more);
  }

  /** The folder is refused: the copy stays one folder short. */
  lemma RefusedStep(s: Source, w: World, u: World, x: World, layer: NodeId, k: nat, target: NodeId)
    requires s.Valid() && layer in s.layers && k < |s.layers[layer].folders| && Usable(target) && target != Null
    requires CopiedSoFar(s, w, u, layer, k, target)
    requires x.layers == u.layers && x.tree.nodes == u.tree.nodes && x.Valid()
    requires ChildId(target, FolderName(s, layer, k)) in u.tree.nodes
    ensures CopiedSoFar(s, w, x, layer, k + 1, target)
  {
    assert s.Child(layer, k);
    hide AreCopies, FreeIds, IsCopy, ChildId, FolderName, IdsBelow, AllIds, Usable, Sound, SetOf, Source.Valid;
    FreeStep(s, w.tree.nodes, layer, k, target);
    assert |x.layers[target].folders| < |w.layers[target].folders + CopyIds(s, layer, target, k + 1)|;
  }

  /** The folder is created and its layer copied into it. */
  lemma CreatedStep(s: Source, w: World, u: World, v: World, x: World, layer: NodeId, k: nat, target: NodeId)
    requires s.Valid() && layer in s.layers && k < |s.layers[layer].folders| && Usable(target) && target != Null
    requires s.Child(layer, k)
    requires CopiedSoFar(s, w, u, layer, k, target)
    requires var child, name := s.layers[layer].folders[k], FolderName(s, layer, k);
      var c := ChildId(target, name);
      && c !in u.tree.nodes && c !in u.layers && c != target && v.tree.nodes == u.tree.nodes + {c} && v.Valid()
      && v.layers == AddLayer(u.layers, target, c, name) && Copied(s, v, x, child, c)
    ensures CopiedSoFar(s, w, x, layer, k + 1, target)
  {
    hide FreeIds, IsCopy, AreCopies, ChildId, FolderName, IdsBelow, AllIds, CopyIds, Usable, Sound, SetOf,
         Source.Valid;
    var name := FolderName(s, layer, k);
    FreeStep(s, w.tree.nodes, layer, k, target);
    LayersStep(s, w, u, v, x, layer, k, target);
    assert v.layers[ChildId(target, name)] == Layer(name, [], []);
  }

  lemma AddLayerKeepsOthers(m: map<NodeId, Layer>, n: map<NodeId, Layer>, o: map<NodeId, Layer>, target: NodeId,
      c: NodeId, name: string)
    requires target in m && c !in m && c != target && n == AddLayer(m, target, c, name) && KeepsOthers(n, o, c)
    ensures KeepsOthers(m, o, target) && target in o
    ensures o[target] == m[target].(folders := m[target].folders + [c])
  {
  }

  lemma LayersStep(s: Source, w: World, u: World, v: World, x: World, layer: NodeId, k: nat, target: NodeId)
    requires s.Valid() && layer in s.layers && k < |s.layers[layer].folders| && Usable(target) && target != Null
    requires s.Child(layer, k) && OnlyAdds(w, u, target)
    requires var name := FolderName(s, layer, k); var c := ChildId(target, name);
      && c !in u.layers && c != target && v.layers == AddLayer(u.layers, target, c, name) && OnlyAdds(v, x, c)
    ensures var child, name := s.layers[layer].folders[k], FolderName(s, layer, k); var c := ChildId(target, name);
      var had := w.layers[target].folders;
      && target in x.layers && KeepsOthers(u.layers, x.layers, target)
      && x.layers[target] == u.layers[target].(folders := u.layers[target].folders + [c])
      && (x.layers[target].folders == had + CopyIds(s, layer, target, k + 1) &&
          AreCopies(s, x.layers, layer, target, k + 1) <==>
          u.layers[target].folders == had + CopyIds(s, layer, target, k) &&
          AreCopies(s, u.layers, layer, target, k) && IsCopy(s, x.layers, child, c, Layer(name, [], [])))
  {
    hide IsCopy, AreCopies, ChildId, FolderName, IdsBelow, Usable, Sound, Source.Valid, AddLayer, KeepsOthers;
    var c, had := ChildId(target, FolderName(s, layer, k)), w.layers[target].folders;
    AddLayerKeepsOthers(u.layers, v.layers, x.layers, target, c, FolderName(s, layer, k));
    AppendIff(u.layers[target].folders, had, CopyIds(s, layer, target, k), c);
    CopiesStep(s, x.layers, layer, target, k + 1);
    EarlierFrame(s, u, x, layer, k, target, had);
  }

  lemma SetOfStep(ids: seq<NodeId>, c: NodeId, more: seq<NodeId>)
    ensures SetOf(ids + ([c] + more)) == SetOf(ids) + {c} + SetOf(more)
  {
  }

  lemma AppendIff(a: seq<NodeId>, b: seq<NodeId>, ids: seq<NodeId>, c: NodeId)
    ensures a + [c] == b + (ids + [c]) <==> a == b + ids
  {
    if a + [c] == b + (ids + [c]) {
      assert b + (ids + [c]) == (b + ids) + [c];
      assert (a + [c])[..|a|] == a && ((b + ids) + [c])[..|b + ids|] == b + ids;
    }
  }

  /** The folders copied earlier are as they were. */
  lemma EarlierFrame(s: Source, u: World, x: World, layer: NodeId, k: nat, target: NodeId, had: seq<NodeId>)
    requires s.Valid() && layer in s.layers && k <= |s.layers[layer].folders| && Usable(target) && target != Null
    requires u.Valid() && target in u.layers && KeepsOthers(u.layers, x.layers, target)
    ensures u.layers[target].folders == had + CopyIds(s, layer, target, k) ==>
            (AreCopies(s, u.layers, layer, target, k) <==> AreCopies(s, x.layers, layer, target, k))
  {
    hide AreCopies, Sound, IdsBelow;
    if u.layers[target].folders == had + CopyIds(s, layer, target, k) {
      ListedInside(u.layers, target, had, CopyIds(s, layer, target, k));
      if target in IdsBelow(s, layer, target, k) { IdsAreDeeper(s, layer, target, k, target); }
      CopiesFrame(s, u.layers, x.layers, layer, target, k, target);
    }
  }

  // ---------------------------------------------------------------- the copy is faithful

  lemma {:induction false} CopyFoldersIff(s: Source, w: World, layer: NodeId, k: nat, target: NodeId)
    requires s.Valid() && layer in s.layers && k <= |s.layers[layer].folders|
    requires w.Valid() && target in w.layers
    ensures Usable(target) && target != Null
    ensures CopiedSoFar(s, w, CopyFolders(s, w, layer, k, target).0, layer, k, target)
    decreases s.rank[layer], k
  {
    hide CopiedSoFar, Copied, CreateFolder, AreCopies, IsCopy, Sound, ChildId, Usable, AddLayer;
    TargetIsUsable(w, target);
    if k == 0 {
      NothingCopied(s, w, layer, target);
    } else {
      assert s.Child(layer, k - 1);
      CopyFoldersIff(s, w, layer, k - 1, target);
      var child, name := s.layers[layer].folders[k - 1], FolderName(s, layer, k - 1);
      var u := CopyFolders(s, w, layer, k - 1, target).0;
      SoFarIsValid(s, w, u, layer, k - 1, target);
      var (v, c) := CreateFolder(u, target, name);
      CreateFolderRefusedIff(u, target, name);
      CreateFolderAdds(u, target, name);
      if c == Null {
        CopyToNowhere(s, v, child);
        SameTreeIsValid(v, CopyLayer(s, v, child, Null).0);
        RefusedStep(s, w, u, CopyLayer(s, v, child, Null).0, layer, k - 1, target);
      } else {
        CopyLayerIsCopyIff(s, v, child, c);
        CreatedStep(s, w, u, v, CopyLayer(s, v, child, c).0, layer, k - 1, target);
      }
    }
  }

  lemma TargetIsUsable(w: World, target: NodeId)
    requires w.Valid() && target in w.layers
    ensures Usable(target) && target != Null
  {
    hide Sound;
  }

  lemma NothingCopied(s: Source, w: World, layer: NodeId, target: NodeId)
    requires s.Valid() && layer in s.layers && w.Valid() && target in w.layers && Usable(target) && target != Null
    ensures CopiedSoFar(s, w, w, layer, 0, target)
  {
    hide Sound;
    assert w.layers[target].folders + [] == w.layers[target].folders;
    assert w.tree.nodes + SetOf([]) == w.tree.nodes;
  }

  lemma SoFarIsValid(s: Source, w: World, u: World, layer: NodeId, k: nat, target: NodeId)
    requires s.Valid() && layer in s.layers && k <= |s.layers[layer].folders| && Usable(target) && target != Null
    requires CopiedSoFar(s, w, u, layer, k, target)
    ensures u.Valid() && target in u.layers
  {
  }

  lemma SameTreeIsValid(v: World, x: World)
    requires v.Valid() && x.layers == v.layers && x.tree == v.tree
    ensures x.Valid() && Null !in v.layers
  {
    hide Sound;
  }

  lemma CreateFolderAdds(u: World, target: NodeId, name: string)
    requires u.Valid() && target in u.layers
    ensures Usable(target) && target != Null && Null !in u.layers
    ensures var (v, id) := CreateFolder(u, target, name);
      && v.layers == (if id == Null then u.layers else AddLayer(u.layers, target, id, name))
      && (id != Null ==> id in v.layers && id != target)
  {
    hide Sound, CreateOne;
    CreateFolderRefusedIff(u, target, name);
  }

  /**
   * A layer is copied faithfully into a folder, whatever that holds already, exactly if the ids of all folders
   * of the copy are pairwise different and none of them is in use.  In any case nothing else in the server changes.
   */
  lemma {:induction false} CopyLayerIsCopyIff(s: Source, w: World, layer: NodeId, target: NodeId)
    requires s.Valid() && layer in s.layers && w.Valid() && target in w.layers
    ensures Usable(target) && target != Null
    ensures Copied(s, w, CopyLayer(s, w, layer, target).0, layer, target)
    decreases s.rank[layer], |s.layers[layer].folders| + 1
  {
    hide AreCopies, Sound, FreeIds, IdsBelow, CopyFolders;
    var l := s.layers[layer];
    var u := CopyComponents(w, l.components, |l.components|, target);
    CopyComponentsFills(w, l.components, |l.components|, target);
    CopyFoldersIff(s, u, layer, |l.folders|, target);
  }

  // ---------------------------------------------------------------- methods and variables below a layer

  /** Folders one inside the other, by position: the last one has a method. */
  ghost predicate LeadsToMethod(s: Source, layer: NodeId, places: seq<nat>)
    requires s.Valid() && layer in s.layers
    decreases |places|
  {
    if places == [] then exists j :: 0 <= j < |s.layers[layer].components| && s.layers[layer].components[j].Method?
    else
      && places[0] < |s.layers[layer].folders|
      && s.Child(layer, places[0])
      && LeadsToMethod(s, s.layers[layer].folders[places[0]], places[1..])
  }

  lemma {:induction false} HasMethodIff(components: seq<Component>, k: nat)
    requires k <= |components|
    ensures HasMethod(components, k) <==> exists j :: 0 <= j < k && components[j].Method?
  {
    if k > 0 { HasMethodIff(components, k - 1); }
  }

  lemma {:induction false} FoundOnlyIfMethod(s: Source, w: World, layer: NodeId, target: NodeId)
      returns (places: seq<nat>)
    requires s.Valid() && layer in s.layers && Usable(target) && CopyLayer(s, w, layer, target).1
    ensures LeadsToMethod(s, layer, places)
    decreases s.rank[layer], |s.layers[layer].folders| + 1
  {
    var l := s.layers[layer];
    HasMethodIff(l.components, |l.components|);
    var u := CopyComponents(w, l.components, |l.components|, target);
    if HasMethod(l.components, |l.components|) {
      places := [];
    } else {
      places := FoundBelow(s, u, layer, |l.folders|, target);
    }
  }

  lemma {:induction false} FoundBelow(s: Source, w: World, layer: NodeId, k: nat, target: NodeId)
      returns (places: seq<nat>)
    requires s.Valid() && layer in s.layers && k <= |s.layers[layer].folders| && Usable(target)
    requires CopyFolders(s, w, layer, k, target).1
    ensures LeadsToMethod(s, layer, places)
    decreases s.rank[layer], k
  {
    hide CreateFolder, Usable;
    assert s.Child(layer, k - 1);
    var child := s.layers[layer].folders[k - 1];
    var (u, found) := CopyFolders(s, w, layer, k - 1, target);
    if found {
      places := FoundBelow(s, w, layer, k - 1, target);
    } else {
      var (v, created) := CreateFolder(u, target, s.layers[child].name);
      var rest := FoundOnlyIfMethod(s, v, child, created);
      places := [k - 1] + rest;
    }
  }

  lemma {:induction false} MethodIsFound(s: Source, w: World, layer: NodeId, target: NodeId, places: seq<nat>)
    requires s.Valid() && layer in s.layers && Usable(target) && LeadsToMethod(s, layer, places)
    ensures CopyLayer(s, w, layer, target).1
    decreases s.rank[layer], |s.layers[layer].folders| + 1
  {
    var l := s.layers[layer];
    HasMethodIff(l.components, |l.components|);
    var u := CopyComponents(w, l.components, |l.components|, target);
    if places != [] { MethodIsFoundBelow(s, u, layer, |l.folders|, target, places); }
  }

  lemma {:induction false} MethodIsFoundBelow(
      s: Source, w: World, layer: NodeId, k: nat, target: NodeId, places: seq<nat>)
    requires s.Valid() && layer in s.layers && Usable(target) && places != [] && LeadsToMethod(s, layer, places)
    requires places[0] < k <= |s.layers[layer].folders|
    ensures CopyFolders(s, w, layer, k, target).1
    decreases s.rank[layer], k
  {
    assert s.Child(layer, k - 1);
    var child := s.layers[layer].folders[k - 1];
    var u := CopyFolders(s, w, layer, k - 1, target).0;
    var (v, created) := CreateFolder(u, target, s.layers[child].name);
    if places[0] == k - 1 {
      MethodIsFound(s, v, child, created, places[1..]);
    } else {
      MethodIsFoundBelow(s, w, layer, k - 1, target, places);
    }
  }

  /** The copy reports a method exactly when there is one somewhere below the layer, wherever it is copied to. */
  lemma ReportsMethodIff(s: Source, w: World, layer: NodeId, target: NodeId)
    requires s.Valid() && layer in s.layers && Usable(target)
    ensures CopyLayer(s, w, layer, target).1 <==> exists places: seq<nat> :: LeadsToMethod(s, layer, places)
  {
    if CopyLayer(s, w, layer, target).1 {
      var places := FoundOnlyIfMethod(s, w, layer, target);
      assert LeadsToMethod(s, layer, places);
    }
    forall places: seq<nat> | LeadsToMethod(s, layer, places) ensures CopyLayer(s, w, layer, target).1 {
      MethodIsFound(s, w, layer, target, places);
    }
  }

  /** The names of variables and the process variables behind them, without the parents. */
  function Bindings(variables: seq<ProcessVariable>): (b: seq<(string, string)>)
    ensures |b| == |variables| && forall i :: 0 <= i < |b| ==> b[i] == (variables[i].name, variables[i].source)
  {
    if variables == [] then [] else [(variables[0].name, variables[0].source)] + Bindings(variables[1..])
  }

  function ComponentBindings(components: seq<Component>, k: nat): seq<(string, string)>
    requires k <= |components|
  {
    if k == 0 then []
    else
      ComponentBindings(components, k - 1) +
      if components[k - 1].Variable? then [(components[k - 1].name, components[k - 1].source)] else []
  }

  /** The variables below a layer: its own ones, then those below its first k folders. */
  function BindingsBelow(s: Source, layer: NodeId, k: nat): seq<(string, string)>
    requires s.Valid() && layer in s.layers && k <= |s.layers[layer].folders|
    decreases s.rank[layer], k
  {
    if k == 0 then ComponentBindings(s.layers[layer].components, |s.layers[layer].components|)
    else
      assert s.Child(layer, k - 1);
      var child := s.layers[layer].folders[k - 1];
      BindingsBelow(s, layer, k - 1) + BindingsBelow(s, child, |s.layers[child].folders|)
  }

  lemma {:induction false} ComponentsBind(w: World, components: seq<Component>, k: nat, target: NodeId)
    requires k <= |components|
    ensures Bindings(CopyComponents(w, components, k, target).variables) ==
            Bindings(w.variables) + ComponentBindings(components, k)
  {
    hide Bindings;
    if k > 0 {
      ComponentsBind(w, components, k - 1, target);
      var u, c := CopyComponents(w, components, k - 1, target), components[k - 1];
      if c.Variable? {
        AddedBinds(u, target, c);
        Assoc(Bindings(w.variables), ComponentBindings(components, k - 1), [(c.name, c.source)]);
      }
    }
  }

  lemma AddedBinds(u: World, target: NodeId, c: Component)
    requires c.Variable?
    ensures Bindings(AddVariable(u, target, c).variables) == Bindings(u.variables) + [(c.name, c.source)]
  {
  }

  /** Every variable below the layer is bound to its process variable once, in order, wherever it is copied to. */
  lemma {:induction false} CopyBinds(s: Source, w: World, layer: NodeId, target: NodeId)
    requires s.Valid() && layer in s.layers && Usable(target)
    ensures Bindings(CopyLayer(s, w, layer, target).0.variables) ==
            Bindings(w.variables) + BindingsBelow(s, layer, |s.layers[layer].folders|)
    decreases s.rank[layer], |s.layers[layer].folders| + 1
  {
    hide Bindings;
    var l := s.layers[layer];
    var u := CopyComponents(w, l.components, |l.components|, target);
    ComponentsBind(w, l.components, |l.components|, target);
    FoldersBind(s, w, u, layer, |l.folders|, target);
  }

  lemma {:induction false} FoldersBind(s: Source, w: World, u: World, layer: NodeId, k: nat, target: NodeId)
    requires s.Valid() && layer in s.layers && k <= |s.layers[layer].folders| && Usable(target)
    requires Bindings(u.variables) == Bindings(w.variables) + BindingsBelow(s, layer, 0)
    ensures Bindings(CopyFolders(s, u, layer, k, target).0.variables) ==
            Bindings(w.variables) + BindingsBelow(s, layer, k)
    decreases s.rank[layer], k
  {
    hide Bindings, CreateFolder, Usable, ComponentBindings;
    if k > 0 {
      assert s.Child(layer, k - 1);
      var child := s.layers[layer].folders[k - 1];
      FoldersBind(s, w, u, layer, k - 1, target);
      var v := CopyFolders(s, u, layer, k - 1, target).0;
      var (x, created) := CreateFolder(v, target, s.layers[child].name);
      CreateFolderKeepsVariables(v, target, s.layers[child].name);
      CopyBinds(s, x, child, created);
      Assoc(Bindings(w.variables), BindingsBelow(s, layer, k - 1), BindingsBelow(s, child, |s.layers[child].folders|));
    }
  }

  lemma CreateFolderKeepsVariables(w: World, target: NodeId, name: string)
    requires Usable(target)
    ensures CreateFolder(w, target, name).0.variables == w.variables
  {
  }

  lemma Assoc(a: seq<(string, string)>, b: seq<(string, string)>, c: seq<(string, string)>)
    ensures (a + b) + c == a + (b + c)
  {
  }

  // ---------------------------------------------------------------- folders of one name

  /** Two folders of one name below one layer: the later one is never copied. */
  lemma SameNameIsLost(s: Source, w: World, layer: NodeId, target: NodeId, j: nat, k: nat)
    requires s.Valid() && layer in s.layers && w.Valid() && target in w.layers
    requires j < k < |s.layers[layer].folders| && FolderName(s, layer, j) == FolderName(s, layer, k)
    ensures Usable(target) && target != Null
    ensures !IsCopy(s, CopyLayer(s, w, layer, target).0.layers, layer, target, w.layers[target])
  {
    hide IsCopy, CopyLayer, FolderName, ChildId, IdsBelow, FreeIds, World.Valid;
    CopyLayerIsCopyIff(s, w, layer, target);
    RepeatedIdIsNotFree(s, w.tree.nodes, layer, target, j, k);
    NeverFreeAgain(s, w.tree.nodes, layer, target, k + 1, |s.layers[layer].folders|);
  }

  lemma RepeatedIdIsNotFree(s: Source, nodes: set<NodeId>, layer: NodeId, copy: NodeId, j: nat, k: nat)
    requires s.Valid() && layer in s.layers && Usable(copy) && copy != Null
    requires j < k < |s.layers[layer].folders| && FolderName(s, layer, j) == FolderName(s, layer, k)
    ensures !FreeIds(nodes, IdsBelow(s, layer, copy, k + 1))
  {
    hide FolderName, ChildId;
    assert s.Child(layer, j) && s.Child(layer, k);
    var c, ids := ChildId(copy, FolderName(s, layer, k)), IdsBelow(s, layer, copy, k);
    var more := AllIds(s, s.layers[layer].folders[k], c);
    IdsOfFolder(s, layer, copy, k, j, c);
    FreeConcat(nodes, ids, [c] + more);
    FreeCons(nodes + SetOf(ids), c, more);
  }

  lemma {:induction false} NeverFreeAgain(
      s: Source, nodes: set<NodeId>, layer: NodeId, copy: NodeId, j: nat, k: nat)
    requires s.Valid() && layer in s.layers && j <= k <= |s.layers[layer].folders| && Usable(copy) && copy != Null
    requires !FreeIds(nodes, IdsBelow(s, layer, copy, j))
    ensures !FreeIds(nodes, IdsBelow(s, layer, copy, k))
  {
    hide FolderName, ChildId, FreeIds;
    if j < k {
      NeverFreeAgain(s, nodes, layer, copy, j, k - 1);
      assert s.Child(layer, k - 1);
      var child, c := s.layers[layer].folders[k - 1], ChildId(copy, FolderName(s, layer, k - 1));
      FreeConcat(nodes, IdsBelow(s, layer, copy, k - 1), [c] + AllIds(s, child, c));
    }
  }
}
