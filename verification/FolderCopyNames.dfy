/**
 When a folder is copied faithfully, in terms of names: below one root, ids stand for paths, so that ids are
 distinct and free exactly when the names along the paths are: below one folder no two of the same name, and none
 that the target has already.
 */
module FolderCopyNames {
  import opened FolderIndex
  import opened FolderPaths
  import opened FolderCopy

  /** No two folders of a layer have the same name, and so on for every folder below. */
  ghost predicate DistinctFrom(s: Source, layer: NodeId)
    requires s.Valid() && layer in s.layers
    decreases s.rank[layer], |s.layers[layer].folders| + 1
  {
    DistinctUpTo(s, layer, |s.layers[layer].folders|)
  }

  /** The same for the first k folders and what is below them. */
  ghost predicate DistinctUpTo(s: Source, layer: NodeId, k: nat)
    requires s.Valid() && layer in s.layers && k <= |s.layers[layer].folders|
    decreases s.rank[layer], k
  {
    k == 0 ||
    (assert s.Child(layer, k - 1);
     && DistinctUpTo(s, layer, k - 1) && NewName(s, layer, k - 1)
     && DistinctFrom(s, s.layers[layer].folders[k - 1]))
  }

  ghost predicate NewName(s: Source, layer: NodeId, k: nat)
    requires s.Valid() && layer in s.layers && k < |s.layers[layer].folders|
  {
    forall j :: 0 <= j < k ==> FolderName(s, layer, j) != FolderName(s, layer, k)
  }

  /** The paths of the copies, each before those below it. */
  function PathsBelow(s: Source, layer: NodeId, path: seq<string>, k: nat): seq<seq<string>>
    requires s.Valid() && layer in s.layers && k <= |s.layers[layer].folders|
    decreases s.rank[layer], k
  {
    if k == 0 then []
    else
      assert s.Child(layer, k - 1);
      var child, p := s.layers[layer].folders[k - 1], path + [FolderName(s, layer, k - 1)];
      PathsBelow(s, layer, path, k - 1) + ([p] + PathsBelow(s, child, p, |s.layers[child].folders|))
  }

  function AllPaths(s: Source, layer: NodeId, path: seq<string>): seq<seq<string>>
    requires s.Valid() && layer in s.layers
  {
    PathsBelow(s, layer, path, |s.layers[layer].folders|)
  }

  /** The ids are those of the paths. */
  ghost predicate IdsOf(root: string, paths: seq<seq<string>>, ids: seq<NodeId>) {
    |ids| == |paths| && forall i :: 0 <= i < |ids| ==> ids[i] == PathId(root, paths[i])
  }

  lemma {:induction false} IdsArePaths(s: Source, layer: NodeId, root: string, path: seq<string>, k: nat)
    requires s.Valid() && layer in s.layers && k <= |s.layers[layer].folders|
    ensures IdsOf(root, PathsBelow(s, layer, path, k), IdsBelow(s, layer, PathId(root, path), k))
    decreases s.rank[layer], k
  {
    hide PathId, ChildId, FolderName;
    if k > 0 {
      assert s.Child(layer, k - 1);
      var child, name := s.layers[layer].folders[k - 1], FolderName(s, layer, k - 1);
      ChildOfPath(root, path, name);
      IdsArePaths(s, layer, root, path, k - 1);
      IdsArePaths(s, child, root, path + [name], |s.layers[child].folders|);
    }
  }

  // ---------------------------------------------------------------- different names, different paths

  ghost predicate Below(s: Source, layer: NodeId, path: seq<string>, k: nat, x: seq<string>)
    requires s.Valid() && layer in s.layers && k <= |s.layers[layer].folders|
  {
    |path| < |x| && x[..|path|] == path && exists j :: 0 <= j < k && x[|path|] == FolderName(s, layer, j)
  }

  lemma {:induction false} PathsAreBelow(s: Source, layer: NodeId, path: seq<string>, k: nat, x: seq<string>)
    requires s.Valid() && layer in s.layers && k <= |s.layers[layer].folders|
    requires x in PathsBelow(s, layer, path, k)
    ensures Below(s, layer, path, k, x)
    decreases s.rank[layer], k
  {
    hide FolderName;
    assert s.Child(layer, k - 1);
    var child, name := s.layers[layer].folders[k - 1], FolderName(s, layer, k - 1);
    var p := path + [name];
    if x in PathsBelow(s, layer, path, k - 1) {
      PathsAreBelow(s, layer, path, k - 1, x);
    } else if x != p {
      PathsAreBelow(s, child, p, |s.layers[child].folders|, x);
      assert x[..|path|] == x[..|p|][..|path|] && x[|path|] == x[..|p|][|path|];
    }
  }

  lemma {:induction false} DirectPaths(s: Source, layer: NodeId, path: seq<string>, k: nat, j: nat)
    requires s.Valid() && layer in s.layers && j < k <= |s.layers[layer].folders|
    ensures path + [FolderName(s, layer, j)] in PathsBelow(s, layer, path, k)
  {
    hide FolderName;
    if j < k - 1 { DirectPaths(s, layer, path, k - 1, j); }
  }

  ghost predicate Different(paths: seq<seq<string>>) {
    forall i, j :: 0 <= i < j < |paths| ==> paths[i] != paths[j]
  }

  lemma DifferentConcat(a: seq<seq<string>>, b: seq<seq<string>>)
    ensures Different(a + b) <==> Different(a) && Different(b) && forall x :: x in a ==> x !in b
  {
    var c := a + b;
    if Different(c) {
      assert forall i :: 0 <= i < |a| ==> c[i] == a[i];
      forall i, j | 0 <= i < j < |b| ensures b[i] != b[j] { assert c[|a| + i] == b[i] && c[|a| + j] == b[j]; }
      forall x | x in a ensures x !in b {
        var i :| 0 <= i < |a| && a[i] == x;
        forall j | 0 <= j < |b| ensures b[j] != x { assert c[i] == x && c[|a| + j] == b[j]; }
      }
    }
    if Different(a) && Different(b) && forall x :: x in a ==> x !in b {
      forall i, j | 0 <= i < j < |c| ensures c[i] != c[j] {
        if i < |a| <= j { assert c[i] in a && c[j] in b; }
      }
    }
  }

  /** The paths of a copy are pairwise different exactly if siblings have different names everywhere. */
  lemma {:induction false} PathsDifferIff(s: Source, layer: NodeId, path: seq<string>, k: nat)
    requires s.Valid() && layer in s.layers && k <= |s.layers[layer].folders|
    ensures Different(PathsBelow(s, layer, path, k)) <==> DistinctUpTo(s, layer, k)
    decreases s.rank[layer], k
  {
    if k > 0 {
      hide Different, FolderName, NewName, Below;
      assert s.Child(layer, k - 1);
      var child, p := s.layers[layer].folders[k - 1], path + [FolderName(s, layer, k - 1)];
      var before, more := PathsBelow(s, layer, path, k - 1), AllPaths(s, child, p);
      PathsDifferIff(s, layer, path, k - 1);
      PathsDifferIff(s, child, p, |s.layers[child].folders|);
      DifferentConcat(before, [p] + more);
      DifferentConcat([p], more);
      OwnPathIsNew(s, child, p);
      NewNameIff(s, layer, path, k - 1);
    }
  }

  lemma OwnPathIsNew(s: Source, child: NodeId, p: seq<string>)
    requires s.Valid() && child in s.layers
    ensures p !in AllPaths(s, child, p) && Different([p])
  {
    if p in AllPaths(s, child, p) { PathsAreBelow(s, child, p, |s.layers[child].folders|, p); }
  }

  /** What is below the folder k is not below an earlier one exactly if its name is new. */
  lemma NewNameIff(s: Source, layer: NodeId, path: seq<string>, k: nat)
    requires s.Valid() && layer in s.layers && k < |s.layers[layer].folders| && s.Child(layer, k)
    ensures var p := path + [FolderName(s, layer, k)];
      (forall x :: x in PathsBelow(s, layer, path, k) ==> x !in [p] + AllPaths(s, s.layers[layer].folders[k], p)) <==>
      NewName(s, layer, k)
  {
    hide FolderName, PathsBelow;
    var child, p := s.layers[layer].folders[k], path + [FolderName(s, layer, k)];
    if NewName(s, layer, k) {
      forall x | x in PathsBelow(s, layer, path, k) ensures x !in [p] + AllPaths(s, child, p) {
        PathsAreBelow(s, layer, path, k, x);
        if x in AllPaths(s, child, p) {
          PathsAreBelow(s, child, p, |s.layers[child].folders|, x);
        }
      }
    } else {
      var j :| 0 <= j < k && FolderName(s, layer, j) == FolderName(s, layer, k);
      DirectPaths(s, layer, path, k, j);
    }
  }

  // ---------------------------------------------------------------- the copy in terms of names

  /** No folder of the layer has the name of one that the target has. */
  ghost predicate NamesAreFree(s: Source, layer: NodeId, made: seq<seq<string>>, path: seq<string>)
    requires s.Valid() && layer in s.layers
  {
    forall k :: 0 <= k < |s.layers[layer].folders| ==> path + [FolderName(s, layer, k)] !in made
  }

  lemma PathsAreFreeIff(s: Source, layer: NodeId, made: seq<seq<string>>, path: seq<string>)
    requires s.Valid() && layer in s.layers && Paths(made) && PrefixClosed(made)
    ensures (forall x :: x in AllPaths(s, layer, path) ==> x !in made) <==> NamesAreFree(s, layer, made, path)
  {
    hide FolderName, PathsBelow, Paths, PrefixClosed;
    var n := |s.layers[layer].folders|;
    if NamesAreFree(s, layer, made, path) {
      forall x | x in AllPaths(s, layer, path) ensures x !in made {
        PathsAreBelow(s, layer, path, n, x);
        var p := x[..|path| + 1];
        assert p == path + [x[|path|]] && p + x[|path| + 1..] == x;
        if x in made { ClosedDown(made, p, x[|path| + 1..]); }
      }
    } else {
      var k :| 0 <= k < n && path + [FolderName(s, layer, k)] in made;
      DirectPaths(s, layer, path, n, k);
    }
  }

  /** A path is free on the server exactly if it is not one of the index. */
  lemma PathIsFreeIff(
      t: Tree, root: string, foreign: set<NodeId>, made: seq<seq<string>>, x: seq<string>)
    requires Rooted(t, root, foreign, made) && x != [] && SlashFreePath(x)
    ensures PathId(root, x) in t.nodes <==> x in made
  {
    if x !in made {
      MissingIsFree(t, root, foreign, made, x);
    } else {
      var i :| 0 <= i < |made| && made[i] == x;
      assert Taken(root, made, PathId(root, x));
    }
  }

  ghost predicate AllSlashFree(paths: seq<seq<string>>) {
    forall i :: 0 <= i < |paths| ==> paths[i] != [] && SlashFreePath(paths[i])
  }

  lemma FreeIdsIff(t: Tree, root: string, foreign: set<NodeId>, made: seq<seq<string>>,
      paths: seq<seq<string>>, ids: seq<NodeId>)
    requires Rooted(t, root, foreign, made) && IdsOf(root, paths, ids) && AllSlashFree(paths)
    ensures FreeIds(t.nodes, ids) <==> Different(paths) && forall x :: x in paths ==> x !in made
  {
    hide Rooted, PathId, SlashFreePath;
    forall i | 0 <= i < |paths| ensures ids[i] in t.nodes <==> paths[i] in made {
      PathIsFreeIff(t, root, foreign, made, paths[i]);
    }
    forall i, j | 0 <= i < j < |paths| ensures ids[i] == ids[j] <==> paths[i] == paths[j] {
      if ids[i] == ids[j] { PathIdInjective(root, paths[i], paths[j]); }
    }
    assert forall i :: 0 <= i < |paths| ==> paths[i] in paths;
  }

  /** Names without slashes everywhere below the layer, and for the target. */
  ghost predicate SlashFreeFrom(s: Source, layer: NodeId, path: seq<string>)
    requires s.Valid() && layer in s.layers
  {
    forall x :: x in AllPaths(s, layer, path) ==> SlashFreePath(x)
  }

  lemma PathsAreSlashFree(s: Source, layer: NodeId, path: seq<string>)
    requires s.Valid() && layer in s.layers && SlashFreeFrom(s, layer, path)
    ensures AllSlashFree(AllPaths(s, layer, path))
  {
    hide SlashFreePath, FolderName, PathsBelow;
    var paths := AllPaths(s, layer, path);
    forall i | 0 <= i < |paths| ensures paths[i] != [] && SlashFreePath(paths[i]) {
      assert paths[i] in paths;
      PathsAreBelow(s, layer, path, |s.layers[layer].folders|, paths[i]);
    }
  }

  /**
   * Into any folder of the index, a layer is copied faithfully exactly if siblings have different names
   * everywhere below the layer and the target has no folder of a name that the layer has.
   */
  lemma NamesDecide(s: Source, w: World, layer: NodeId, root: string, foreign: set<NodeId>,
      made: seq<seq<string>>, path: seq<string>)
    requires s.Valid() && layer in s.layers && w.Valid() && PathId(root, path) in w.layers
    requires Rooted(w.tree, root, foreign, made) && SlashFreeFrom(s, layer, path)
    ensures var target := PathId(root, path);
      IsCopy(s, CopyLayer(s, w, layer, target).0.layers, layer, target, w.layers[target]) <==>
      DistinctFrom(s, layer) && NamesAreFree(s, layer, made, path)
  {
    hide World.Valid, Rooted, PathId, SlashFreeFrom, NamesAreFree, IsCopy, CopyLayer, FreeIds, PathsBelow, IdsBelow,
         Different, IdsOf, AllSlashFree, DistinctUpTo;
    var target, n := PathId(root, path), |s.layers[layer].folders|;
    CopyLayerIsCopyIff(s, w, layer, target);
    IdsArePaths(s, layer, root, path, n);
    PathsAreSlashFree(s, layer, path);
    FreeIdsIff(w.tree, root, foreign, made, AllPaths(s, layer, path), AllIds(s, layer, target));
    PathsDifferIff(s, layer, path, n);
    assert Paths(made) && PrefixClosed(made) by { RootedPaths(w.tree, root, foreign, made); }
    PathsAreFreeIff(s, layer, made, path);
  }

  /** Into a folder without folders, it is decided by the names below the source alone. */
  lemma FreshTargetIff(s: Source, w: World, layer: NodeId, root: string, foreign: set<NodeId>,
      made: seq<seq<string>>, path: seq<string>)
    requires s.Valid() && layer in s.layers && w.Valid() && PathId(root, path) in w.layers
    requires Rooted(w.tree, root, foreign, made) && SlashFreeFrom(s, layer, path)
    requires forall name :: path + [name] !in made
    ensures var target := PathId(root, path);
      IsCopy(s, CopyLayer(s, w, layer, target).0.layers, layer, target, w.layers[target]) <==> DistinctFrom(s, layer)
  {
    hide World.Valid, Rooted, PathId, SlashFreeFrom, IsCopy, CopyLayer, DistinctFrom;
    NamesDecide(s, w, layer, root, foreign, made, path);
  }

  // ---------------------------------------------------------------- two folders of one name

  /** The adapter's folders a/x, b/x and new. */
  function TwinTree(root: string, foreign: set<NodeId>): (t: Tree)
    ensures Sound(t)
  {
    CreatePaths(Tree([], foreign), root, [["a", "x"], ["b", "x"], ["new"]]).0
  }

  /** The folder a also refers to the folder of the name x below b. */
  function TwinSource(root: string): Source {
    var a, own, other := PathId(root, ["a"]), PathId(root, ["a", "x"]), PathId(root, ["b", "x"]);
    Source(map[a := Layer("a", [], [own, other]), own := Layer("x", [], []),
               other := Layer("x", [Variable("v", "pv")], [])],
           map[a := 1, own := 0, other := 0])
  }

  function TwinWorld(root: string, foreign: set<NodeId>): World {
    World(TwinTree(root, foreign), TwinSource(root).layers[PathId(root, ["new"]) := Layer("new", [], [])], [])
  }

  /** The folders have different ids. */
  lemma TwinIds(root: string)
    ensures var a, own, other, target :=
        PathId(root, ["a"]), PathId(root, ["a", "x"]), PathId(root, ["b", "x"]), PathId(root, ["new"]);
      a != own && a != other && own != other && target != a && target != own && target != other
  {
    hide PathId;
    var a, ax, bx, new' := ["a"], ["a", "x"], ["b", "x"], ["new"];
    assert a != ax && a != bx && ax != bx && new' != ax && new' != bx && new' != a by {
      assert ax[0] == "a" && bx[0] == "b" && a[0] == "a" && new'[0] == "new" && "a"[0] != "b"[0] && |"new"| != |"a"|;
    }
    if PathId(root, a) == PathId(root, ax) { PathIdInjective(root, a, ax); }
    if PathId(root, a) == PathId(root, bx) { PathIdInjective(root, a, bx); }
    if PathId(root, ax) == PathId(root, bx) { PathIdInjective(root, ax, bx); }
    if PathId(root, new') == PathId(root, a) { PathIdInjective(root, new', a); }
    if PathId(root, new') == PathId(root, ax) { PathIdInjective(root, new', ax); }
    if PathId(root, new') == PathId(root, bx) { PathIdInjective(root, new', bx); }
  }

  /** The index holds these folders, and the name x is free below the new one. */
  lemma TwinTreeHolds(root: string, foreign: set<NodeId>)
    requires Elsewhere(root, foreign)
    ensures var t := TwinTree(root, foreign);
      && PathId(root, ["a"]) in t.nodes && PathId(root, ["a", "x"]) in t.nodes && PathId(root, ["b", "x"]) in t.nodes
      && PathId(root, ["new"]) in t.nodes && PathId(root, ["new", "x"]) !in t.nodes
  {
    hide PathId, Rooted, Elsewhere, CreatePaths, WithPaths;
    var paths := [["a", "x"], ["b", "x"], ["new"]];
    AnyCallsRefinePathSet(root, foreign, paths);
    var t, made := TwinTree(root, foreign), WithPaths([], paths);
    assert ["a"] <= paths[0] && ["a", "x"] <= paths[0] && ["b", "x"] <= paths[1] && ["new"] <= paths[2];
    assert IsPrefixOfOne(["a"], paths) && IsPrefixOfOne(["a", "x"], paths);
    assert IsPrefixOfOne(["b", "x"], paths) && IsPrefixOfOne(["new"], paths);
    PathIsFreeIff(t, root, foreign, made, ["a"]);
    PathIsFreeIff(t, root, foreign, made, ["a", "x"]);
    PathIsFreeIff(t, root, foreign, made, ["b", "x"]);
    PathIsFreeIff(t, root, foreign, made, ["new"]);
    NewXIsMissing();
    PathIsFreeIff(t, root, foreign, made, ["new", "x"]);
  }

  lemma NewXIsMissing()
    ensures !IsPrefixOfOne(["new", "x"], [["a", "x"], ["b", "x"], ["new"]])
  {
    var p := ["new", "x"];
    assert p[0] == "new" && |"new"| != |"a"| && |"new"| != |"b"|;
    assert !(p <= ["a", "x"]) && !(p <= ["b", "x"]) && !(p <= ["new"]);
  }

  lemma TwinsAreValid(root: string, foreign: set<NodeId>)
    requires Elsewhere(root, foreign)
    ensures var s, w, target := TwinSource(root), TwinWorld(root, foreign), PathId(root, ["new"]);
      Within(s, w) && Outside(s, w, target) && PathId(root, ["a"]) in s.layers
  {
    hide PathId, Sound, TwinTree, Elsewhere;
    TwinIds(root);
    TwinTreeHolds(root, foreign);
  }

  /** The world after the first of the two folders. */
  function FirstTwinWorld(root: string, foreign: set<NodeId>): World {
    var w, target := TwinWorld(root, foreign), PathId(root, ["new"]);
    var c := PathId(root, ["new", "x"]);
    World(CreateOne(w.tree, target, "x").0, AddLayer(w.layers, target, c, "x"), [])
  }

  lemma NewX(root: string)
    ensures ChildId(PathId(root, ["new"]), "x") == PathId(root, ["new", "x"])
  {
    ChildOfPath(root, ["new"], "x");
    assert ["new"] + ["x"] == ["new", "x"];
  }

  lemma FirstTwin(root: string, foreign: set<NodeId>)
    requires Elsewhere(root, foreign)
    ensures TwinSource(root).Valid() && PathId(root, ["a"]) in TwinSource(root).layers
    ensures var s, w, target := TwinSource(root), TwinWorld(root, foreign), PathId(root, ["new"]);
      && |s.layers[PathId(root, ["a"])].folders| == 2
      && CopyFolders(s, w, PathId(root, ["a"]), 1, target).0 == FirstTwinWorld(root, foreign)
      && FirstTwinWorld(root, foreign).Valid()
      && PathId(root, ["new", "x"]) in FirstTwinWorld(root, foreign).tree.nodes
      && target in FirstTwinWorld(root, foreign).layers
      && FirstTwinWorld(root, foreign).layers[target].folders == [PathId(root, ["new", "x"])]
      && Null !in FirstTwinWorld(root, foreign).layers
  {
    hide PathId, ChildId, Sound, TwinTree, Elsewhere, CreateOne;
    TwinIds(root);
    TwinsAreValid(root, foreign);
    TwinTreeHolds(root, foreign);
    NewX(root);
    var s, w, target, a := TwinSource(root), TwinWorld(root, foreign), PathId(root, ["new"]), PathId(root, ["a"]);
    var c := PathId(root, ["new", "x"]);
    assert s.Child(a, 0);
    CreateFolderRefusedIff(w, target, "x");
    assert c !in w.layers && c != target;
    assert [] + [c] == [c];
    assert CreateFolder(w, target, "x") == (FirstTwinWorld(root, foreign), c);
    EmptyLayerCopies(s, FirstTwinWorld(root, foreign), PathId(root, ["a", "x"]), c);
  }

  lemma EmptyLayerCopies(s: Source, w: World, layer: NodeId, target: NodeId)
    requires s.Valid() && layer in s.layers && Usable(target)
    requires s.layers[layer].components == [] && s.layers[layer].folders == []
    ensures CopyLayer(s, w, layer, target).0 == w
  {
  }

  lemma SecondTwin(root: string, foreign: set<NodeId>)
    requires Elsewhere(root, foreign)
    ensures TwinSource(root).Valid() && PathId(root, ["a"]) in TwinSource(root).layers
    ensures var s, w := TwinSource(root), TwinWorld(root, foreign);
      var v := CopyLayer(s, w, PathId(root, ["a"]), PathId(root, ["new"])).0;
      && v.layers == FirstTwinWorld(root, foreign).layers
      && v.variables == [ProcessVariable(Null, "v", "pv")]
  {
    hide PathId, ChildId, Sound, TwinTree, Elsewhere, CreateOne, FirstTwinWorld, TwinWorld;
    TwinIds(root);
    FirstTwin(root, foreign);
    NewX(root);
    var s, w, target, a := TwinSource(root), TwinWorld(root, foreign), PathId(root, ["new"]), PathId(root, ["a"]);
    var u, other := FirstTwinWorld(root, foreign), PathId(root, ["b", "x"]);
    assert s.Child(a, 1);
    var (v, refused) := CreateFolder(u, target, "x");
    CreateFolderRefusedIff(u, target, "x");
    assert refused == Null && v.layers == u.layers;
    assert u.variables == [] by { FirstTwinHasNoVariables(root, foreign); }
    CreateFolderKeepsVariables(u, target, "x");
    VariableNowhere(s, v, other);
    assert CopyComponents(w, [], 0, target) == w;
  }

  lemma FirstTwinHasNoVariables(root: string, foreign: set<NodeId>)
    ensures FirstTwinWorld(root, foreign).variables == []
  {
  }

  lemma VariableNowhere(s: Source, v: World, layer: NodeId)
    requires s.Valid() && layer in s.layers && Null !in v.layers
    requires s.layers[layer].components == [Variable("v", "pv")] && s.layers[layer].folders == []
    ensures CopyLayer(s, v, layer, Null).0 == v.(variables := v.variables + [ProcessVariable(Null, "v", "pv")])
  {
    var c := s.layers[layer].components;
    assert CopyComponents(v, c, 1, Null) == AddVariable(CopyComponents(v, c, 0, Null), Null, c[0]);
  }

  /** The second folder is not created, and its variable has no place on the server. */
  lemma TwinsLoseOne(root: string, foreign: set<NodeId>)
    requires Elsewhere(root, foreign)
    ensures var s, w, a, target :=
        TwinSource(root), TwinWorld(root, foreign), PathId(root, ["a"]), PathId(root, ["new"]);
      && Within(s, w) && Outside(s, w, target) && a in s.layers && target in w.layers
      && var v := CopyLayer(s, w, a, target).0;
        && target in v.layers && v.layers[target].folders == [PathId(root, ["new", "x"])]
        && v.variables == [ProcessVariable(Null, "v", "pv")]
        && !IsCopy(s, v.layers, a, target, w.layers[target])
  {
    hide PathId, ChildId, Sound, TwinTree, Elsewhere, FirstTwinWorld, IsCopy, CopyLayer;
    TwinIds(root);
    TwinsAreValid(root, foreign);
    FirstTwin(root, foreign);
    SecondTwin(root, foreign);
    SameNameIsLost(TwinSource(root), TwinWorld(root, foreign), PathId(root, ["a"]), PathId(root, ["new"]), 0, 1);
  }
}
