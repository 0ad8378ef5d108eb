/** The folders of the address space and the index that finds them by path. */
module FolderIndex {
  import opened InfluxTypes
  import opened Decimal

  datatype NodeId = Null | NumericId(number: nat) | StringId(text: string)

  datatype FolderInfo = FolderInfo(folderName: string, folderNodeId: NodeId, prevFolderNodeId: NodeId)

  /** The index and the ids that the server knows, of folders and of everything else. */
  datatype Tree = Tree(folders: seq<FolderInfo>, nodes: set<NodeId>)

  // ---------------------------------------------------------------- node ids

  /** Folder ids end in "Dir"; the source cuts these characters off without looking at them. */
  ghost predicate Usable(id: NodeId) { id.StringId? ==> id.text == "" || |id.text| >= 3 }

  function ChildText(base: NodeId, name: string): (s: string)
    requires Usable(base) && base != Null
    ensures |s| >= 3
  {
    if base.StringId? then (if base.text == "" then "" else base.text[..|base.text| - 3]) + ("/" + (name + "Dir"))
    else "/" + (PrintNat(base.number) + "Dir")
  }

  function ChildId(base: NodeId, name: string): (id: NodeId)
    requires Usable(base) && base != Null
    ensures id != Null && Usable(id)
  {
    StringId(ChildText(base, name))
  }

  // ---------------------------------------------------------------- lookup

  function FindEntry(folders: seq<FolderInfo>, base: NodeId, name: string): (r: Option<NodeId>)
    ensures r.Some? ==> exists i :: 0 <= i < |folders| && folders[i] == FolderInfo(name, r.value, base)
    ensures r.None? ==> forall i :: 0 <= i < |folders| ==>
                          !(folders[i].folderName == name && folders[i].prevFolderNodeId == base)
  {
    if folders == [] then None
    else if folders[0].folderName == name && folders[0].prevFolderNodeId == base then
      assert folders[0] == FolderInfo(name, folders[0].folderNodeId, base);
      Some(folders[0].folderNodeId)
    else
      var r := FindEntry(folders[1..], base, name);
      assert forall i :: 0 <= i < |folders| - 1 ==> folders[1..][i] == folders[i + 1];
      r
  }

  function Find(folders: seq<FolderInfo>, base: NodeId, name: string): NodeId {
    var r := FindEntry(folders, base, name);
    if r.None? then Null else r.value
  }

  function FindPath(folders: seq<FolderInfo>, base: NodeId, path: seq<string>): NodeId
    decreases |path|
  {
    if path == [] || base == Null then base else FindPath(folders, Find(folders, base, path[0]), path[1..])
  }

  // ---------------------------------------------------------------- creation

  /** What every operation keeps: an entry that could not be created stays with a null id, as its id is taken. */
  ghost predicate Sound(t: Tree) {
    forall i :: 0 <= i < |t.folders| ==> SoundEntry(t.folders[i], t.nodes)
  }

  ghost predicate SoundEntry(e: FolderInfo, nodes: set<NodeId>) {
    && e.prevFolderNodeId != Null && Usable(e.prevFolderNodeId)
    && ChildId(e.prevFolderNodeId, e.folderName) in nodes
    && e.folderNodeId in {Null, ChildId(e.prevFolderNodeId, e.folderName)}
  }

  /** createFolder: null if the base is null, the folder exists already or its id is taken. */
  function CreateOne(t: Tree, base: NodeId, name: string): (r: (Tree, NodeId))
    requires Usable(base)
    ensures Usable(r.1)
  {
    if base == Null || Find(t.folders, base, name) != Null then (t, Null)
    else
      var id := ChildId(base, name);
      var created := if id in t.nodes then Null else id;
      (Tree(t.folders + [FolderInfo(name, created, base)], t.nodes + {id}), created)
  }

  function CreateAll(t: Tree, base: NodeId, path: seq<string>): (Tree, NodeId)
    requires Usable(base)
    decreases |path|
  {
    if path == [] then (t, base) else var (u, n) := CreateOne(t, base, path[0]); CreateAll(u, n, path[1..])
  }

  /** The existing part of a path, without its last name: length and node. */
  function Prefix(folders: seq<FolderInfo>, base: NodeId, path: seq<string>): (nat, NodeId)
    decreases |path|
  {
    if |path| <= 1 || FindEntry(folders, base, path[0]).None? then (0, base)
    else var (k, n) := Prefix(folders, FindEntry(folders, base, path[0]).value, path[1..]); (k + 1, n)
  }

  lemma {:induction false} PrefixIsUsable(t: Tree, base: NodeId, path: seq<string>)
    requires Sound(t) && Usable(base)
    ensures var (k, n) := Prefix(t.folders, base, path); k <= |path| && Usable(n)
    decreases |path|
  {
    if |path| > 1 && FindEntry(t.folders, base, path[0]).Some? {
      EntryIsSound(t, base, path[0]);
      PrefixIsUsable(t, FindEntry(t.folders, base, path[0]).value, path[1..]);
    }
  }

  lemma EntryIsSound(t: Tree, base: NodeId, name: string)
    requires Sound(t) && FindEntry(t.folders, base, name).Some?
    ensures SoundEntry(FolderInfo(name, FindEntry(t.folders, base, name).value, base), t.nodes)
    ensures Usable(FindEntry(t.folders, base, name).value)
  {
  }

  function CreatePath(t: Tree, base: NodeId, path: seq<string>): (Tree, NodeId)
    requires Sound(t) && Usable(base)
  {
    if base == Null then (t, Null)
    else if FindPath(t.folders, base, path) != Null then (t, FindPath(t.folders, base, path))
    else
      PrefixIsUsable(t, base, path);
      var (k, n) := Prefix(t.folders, base, path);
      CreateAll(t, n, path[k..])
  }

  class UaAdapter {
    var folderVector: seq<FolderInfo>
    var serverNodes: set<NodeId>

    ghost function View(): Tree reads this { Tree(folderVector, serverNodes) }

    constructor (foreign: set<NodeId>)
      ensures View() == Tree([], foreign)
    {
      folderVector, serverNodes := [], foreign;
    }

    method ExistFolder(base: NodeId, folder: string) returns (id: NodeId)
      ensures id == Find(folderVector, base, folder)
    {
      assert folderVector[0..] == folderVector;
      for i := 0 to |folderVector|
        invariant FindEntry(folderVector[i..], base, folder) == FindEntry(folderVector, base, folder)
      {
        assert folderVector[i..][1..] == folderVector[i + 1..];
        var f := folderVector[i];
        if f.folderName == folder && f.prevFolderNodeId == base { return f.folderNodeId; }
      }
      id := Null;
    }

    method ExistFolderPath(base: NodeId, path: seq<string>) returns (id: NodeId)
      requires base != Null
      ensures id == FindPath(folderVector, base, path)
    {
      id := base;
      assert path[0..] == path;
      for m := 0 to |path|
        invariant id != Null && FindPath(folderVector, id, path[m..]) == FindPath(folderVector, base, path)
      {
        assert path[m..][1..] == path[m + 1..];
        id := ExistFolder(id, path[m]);
        if id == Null { return; }
      }
    }

    method CreateUAFolder(base: NodeId, name: string) returns (created: NodeId)
      requires base != Null && Usable(base)
      modifies `serverNodes
      ensures created == if ChildId(base, name) in old(serverNodes) then Null else ChildId(base, name)
      ensures serverNodes == old(serverNodes) + {ChildId(base, name)}
    {
      var text := "";
      if base.StringId? {
        text := base.text;
        if text != "" { text := text[..|text| - 3]; }
        text := text + ("/" + (name + "Dir"));
      } else {
        text := "/" + (PrintNat(base.number) + "Dir");
      }
      var id := StringId(text);
      if id in serverNodes { return Null; }
      serverNodes := serverNodes + {id};
      created := id;
    }

    method CreateFolder(base: NodeId, name: string) returns (id: NodeId)
      requires Usable(base)
      modifies this
      ensures (View(), id) == CreateOne(old(View()), base, name)
    {
      if base == Null { return Null; }
      var existing := ExistFolder(base, name);
      id := Null;
      if existing == Null {
        id := CreateUAFolder(base, name);
        folderVector := folderVector + [FolderInfo(name, id, base)];
      }
    }

    method CreateFolderPath(base: NodeId, path: seq<string>) returns (id: NodeId)
      requires Sound(View()) && Usable(base)
      modifies this
      ensures (View(), id) == CreatePath(old(View()), base, path)
    {
      hide FindPath, FindEntry, Find, Prefix, Sound, CreateOne;
      if base == Null { return Null; }
      ghost var t := View();
      var existing := ExistFolderPath(base, path);
      if existing != Null { return existing; }
      var starter, next := ExistingPart(base, path);
      PrefixIsUsable(t, base, path);
      id := next;
      for m := starter to |path|
        invariant Usable(id)
        invariant CreateAll(View(), id, path[m..]) == CreateAll(t, next, path[starter..])
      {
        assert path[m..][1..] == path[m + 1..];
        id := CreateFolder(id, path[m]);
      }
    }

    /** The two nested loops that search the part of the path that exists. */
    method ExistingPart(base: NodeId, path: seq<string>) returns (starter: nat, next: NodeId)
      ensures (starter, next) == Prefix(folderVector, base, path) && starter <= |path|
    {
      starter, next := 0, base;
      var m := 0;
      assert path[0..] == path;
      while m < |path|
        invariant m <= |path| && starter == m
        invariant Prefix(folderVector, base, path).0 == m + Prefix(folderVector, next, path[m..]).0
        invariant Prefix(folderVector, base, path).1 == Prefix(folderVector, next, path[m..]).1
      {
        var setted := false;
        var i := 0;
        ghost var entry := FindEntry(folderVector, next, path[m]);
        assert folderVector[0..] == folderVector;
        while i < |folderVector|
          invariant 0 <= i <= |folderVector| && !setted
          invariant m + 1 < |path| ==> FindEntry(folderVector[i..], next, path[m]) == entry
        {
          assert folderVector[i..][1..] == folderVector[i + 1..];
          var f := folderVector[i];
          if f.folderName == path[m] && f.prevFolderNodeId == next && m + 1 < |path| {
            setted := true;
            starter := m + 1;
            next := f.folderNodeId;
            break;
          }
          i := i + 1;
        }
        if !setted { break; }
        assert path[m..][1..] == path[m + 1..];
        m := m + 1;
      }
    }
  }

  // ---------------------------------------------------------------- what creation does

  /** The longest part of a path that can be found: length and node. */
  function Longest(folders: seq<FolderInfo>, base: NodeId, path: seq<string>): (nat, NodeId)
    decreases |path|
  {
    if path == [] || Find(folders, base, path[0]) == Null then (0, base)
    else var (k, n) := Longest(folders, Find(folders, base, path[0]), path[1..]); (k + 1, n)
  }

  /** No node has one of the ids that the folders of a path below a base would get. */
  ghost predicate Free(nodes: set<NodeId>, base: NodeId, path: seq<string>)
    requires Usable(base) && base != Null
    decreases |path|
  {
    path == [] || (ChildId(base, path[0]) !in nodes && Free(nodes, ChildId(base, path[0]), path[1..]))
  }

  function Descend(base: NodeId, path: seq<string>): (id: NodeId)
    requires Usable(base) && base != Null
    ensures id != Null && Usable(id)
    decreases |path|
  {
    if path == [] then base else Descend(ChildId(base, path[0]), path[1..])
  }

  lemma {:induction false} LongestIsUsable(t: Tree, base: NodeId, path: seq<string>)
    requires Sound(t) && Usable(base) && base != Null
    ensures var (k, n) := Longest(t.folders, base, path);
      && k <= |path| && Usable(n) && n != Null
      && FindPath(t.folders, base, path) == if k == |path| then n else Null
    decreases |path|
  {
    if path != [] && Find(t.folders, base, path[0]) != Null {
      EntryIsSound(t, base, path[0]);
      LongestIsUsable(t, Find(t.folders, base, path[0]), path[1..]);
    }
  }

  lemma CreateOneKeepsSound(t: Tree, base: NodeId, name: string)
    requires Sound(t) && Usable(base)
    ensures Sound(CreateOne(t, base, name).0)
  {
    var u := CreateOne(t, base, name).0;
    forall i | 0 <= i < |u.folders| ensures SoundEntry(u.folders[i], u.nodes) {
      if i < |t.folders| { assert SoundEntry(t.folders[i], t.nodes); }
    }
  }

  /** No operation breaks the index, whether it succeeds or not. */
  lemma {:induction false} CreateAllKeepsSound(t: Tree, base: NodeId, path: seq<string>)
    requires Sound(t) && Usable(base)
    ensures Sound(CreateAll(t, base, path).0)
    decreases |path|
  {
    if path != [] {
      CreateOneKeepsSound(t, base, path[0]);
      var (u, n) := CreateOne(t, base, path[0]);
      CreateAllKeepsSound(u, n, path[1..]);
    }
  }

  lemma CreatePathKeepsSound(t: Tree, base: NodeId, path: seq<string>)
    requires Sound(t) && Usable(base)
    ensures Sound(CreatePath(t, base, path).0)
  {
    PrefixIsUsable(t, base, path);
    var (k, n) := Prefix(t.folders, base, path);
    CreateAllKeepsSound(t, n, path[k..]);
  }

  lemma {:induction false} NothingBelowNull(t: Tree, path: seq<string>)
    ensures CreateAll(t, Null, path) == (t, Null)
    decreases |path|
  {
    if path != [] { NothingBelowNull(t, path[1..]); }
  }

  /** The ids below a folder are longer than its own, so that creating it does not occupy them. */
  lemma {:induction false} DeeperIdsDiffer(nodes: set<NodeId>, id: NodeId, base: NodeId, path: seq<string>)
    requires id.StringId? && base.StringId? && |base.text| >= 3 && |id.text| <= |base.text|
    ensures Free(nodes + {id}, base, path) == Free(nodes, base, path)
    decreases |path|
  {
    if path != [] { DeeperIdsDiffer(nodes, id, ChildId(base, path[0]), path[1..]); }
  }

  /** Creating folders one below the other succeeds exactly when all their ids are free. */
  lemma {:induction false} CreateAllSucceedsIff(t: Tree, base: NodeId, path: seq<string>)
    requires Sound(t) && Usable(base) && base != Null
    ensures CreateAll(t, base, path).1 == if Free(t.nodes, base, path) then Descend(base, path) else Null
    decreases |path|
  {
    if path != [] {
      var id := ChildId(base, path[0]);
      var (u, n) := CreateOne(t, base, path[0]);
      CreateOneKeepsSound(t, base, path[0]);
      if id in t.nodes {
        NothingBelowNull(u, path[1..]);
      } else {
        if FindEntry(t.folders, base, path[0]).Some? { EntryIsSound(t, base, path[0]); }
        DeeperIdsDiffer(t.nodes, id, id, path[1..]);
        CreateAllSucceedsIff(u, n, path[1..]);
      }
    }
  }

  lemma {:induction false} FindAfterAppend(a: seq<FolderInfo>, b: seq<FolderInfo>, base: NodeId, name: string)
    ensures FindEntry(a + b, base, name) ==
            if FindEntry(a, base, name).Some? then FindEntry(a, base, name) else FindEntry(b, base, name)
  {
    if a == [] {
      assert a + b == b;
    } else {
      FindAfterAppend(a[1..], b, base, name);
      assert (a + b)[1..] == a[1..] + b;
    }
  }

  /** Every lookup that finds a folder still finds the same one. */
  ghost predicate Extends(after: seq<FolderInfo>, before: seq<FolderInfo>) {
    |before| <= |after| && after[..|before|] == before
  }

  lemma ExtendsKeepsLookups(after: seq<FolderInfo>, before: seq<FolderInfo>, base: NodeId, name: string)
    requires Extends(after, before) && Find(before, base, name) != Null
    ensures Find(after, base, name) == Find(before, base, name)
  {
    assert after == before + after[|before|..];
    FindAfterAppend(before, after[|before|..], base, name);
  }

  lemma {:induction false} ExtendsKeepsPaths(
      after: seq<FolderInfo>, before: seq<FolderInfo>, base: NodeId, path: seq<string>)
    requires Extends(after, before) && FindPath(before, base, path) != Null
    ensures FindPath(after, base, path) == FindPath(before, base, path)
    decreases |path|
  {
    if path != [] && base != Null {
      ExtendsKeepsLookups(after, before, base, path[0]);
      ExtendsKeepsPaths(after, before, Find(before, base, path[0]), path[1..]);
    }
  }

  lemma {:induction false} CreateAllExtends(t: Tree, base: NodeId, path: seq<string>)
    requires Usable(base)
    ensures Extends(CreateAll(t, base, path).0.folders, t.folders)
    decreases |path|
  {
    if path != [] {
      var (u, n) := CreateOne(t, base, path[0]);
      CreateAllExtends(u, n, path[1..]);
      assert Extends(u.folders, t.folders);
    }
  }

  /** One entry for each folder, and all of them are found again. */
  lemma {:induction false} CreateAllIsFound(t: Tree, base: NodeId, path: seq<string>)
    requires Sound(t) && Usable(base) && base != Null && Free(t.nodes, base, path)
    ensures var (u, n) := CreateAll(t, base, path);
      && FindPath(u.folders, base, path) == n && n != Null
      && |u.folders| == |t.folders| + |path|
    decreases |path|
  {
    if path != [] {
      CreateAllSucceedsIff(t, base, path);
      var id := ChildId(base, path[0]);
      if FindEntry(t.folders, base, path[0]).Some? { EntryIsSound(t, base, path[0]); }
      var (u, n) := CreateOne(t, base, path[0]);
      assert n == id;
      CreateOneKeepsSound(t, base, path[0]);
      DeeperIdsDiffer(t.nodes, id, id, path[1..]);
      CreateAllIsFound(u, id, path[1..]);
      CreateAllExtends(u, id, path[1..]);
      FindAfterAppend(t.folders, [FolderInfo(path[0], id, base)], base, path[0]);
      ExtendsKeepsLookups(CreateAll(u, id, path[1..]).0.folders, u.folders, base, path[0]);
    }
  }

  /** Searching what exists and then creating the rest is what createFolderPath amounts to when it succeeds. */
  lemma {:induction false} CreatePathResumes(t: Tree, base: NodeId, path: seq<string>)
    requires Sound(t) && Usable(base) && base != Null
    ensures var (k, n) := Longest(t.folders, base, path);
      && k <= |path| && Usable(n) && n != Null
      && CreatePath(t, base, path).1 == CreateAll(t, n, path[k..]).1
      && (CreatePath(t, base, path).1 != Null ==> CreatePath(t, base, path) == CreateAll(t, n, path[k..]))
  {
    LongestIsUsable(t, base, path);
    if FindPath(t.folders, base, path) == Null { PrefixOrBlocked(t, base, path); }
  }

  lemma {:induction false} PrefixOrBlocked(t: Tree, base: NodeId, path: seq<string>)
    requires Sound(t) && Usable(base) && base != Null && FindPath(t.folders, base, path) == Null
    ensures var (k, n) := Prefix(t.folders, base, path); var (l, m) := Longest(t.folders, base, path);
      && k <= |path| && l <= |path| && Usable(n) && Usable(m) && m != Null
      && ((k, n) == (l, m) || (CreateAll(t, n, path[k..]).1 == Null && CreateAll(t, m, path[l..]).1 == Null))
    decreases |path|
  {
    PrefixIsUsable(t, base, path);
    LongestIsUsable(t, base, path);
    var entry := FindEntry(t.folders, base, path[0]);
    if |path| > 1 && entry.Some? {
      EntryIsSound(t, base, path[0]);
      if entry.value == Null {
        NullPrefix(t, path[1..]);
        NothingBelowNull(t, path[1..][Prefix(t.folders, Null, path[1..]).0..]);
        CreateAllSucceedsIff(t, base, path);
      } else {
        PrefixOrBlocked(t, entry.value, path[1..]);
        var k, l := Prefix(t.folders, entry.value, path[1..]).0, Longest(t.folders, entry.value, path[1..]).0;
        assert path[1..][k..] == path[k + 1..] && path[1..][l..] == path[l + 1..];
      }
    }
  }

  lemma {:induction false} NullPrefix(t: Tree, path: seq<string>)
    requires Sound(t)
    ensures Prefix(t.folders, Null, path) == (0, Null)
  {
    if path != [] && FindEntry(t.folders, Null, path[0]).Some? { EntryIsSound(t, Null, path[0]); }
  }

  /**
   * createFolderPath returns a folder exactly when no other node occupies an id that it has to create.
   * It is then the folder found at the path from now on, there is one more entry for each missing name,
   * every earlier entry is as it was, and asking again changes nothing.
   */
  lemma CreateFolderPathCreates(t: Tree, base: NodeId, path: seq<string>)
    requires Sound(t) && Usable(base) && base != Null
    ensures var (k, n) := Longest(t.folders, base, path); var (u, id) := CreatePath(t, base, path);
      && Extends(u.folders, t.folders) && Sound(u)
      && k <= |path| && Usable(n) && n != Null
      && (id != Null <==> Free(t.nodes, n, path[k..]))
      && (id != Null ==>
            && id == Descend(n, path[k..]) == FindPath(u.folders, base, path)
            && |u.folders| == |t.folders| + |path| - k
            && CreatePath(u, base, path) == (u, id))
  {
    hide CreatePath, CreateAll, FindPath, Find, Free, Longest, Prefix, Sound;
    CreatePathResumes(t, base, path);
    CreatePathKeepsSound(t, base, path);
    CreatePathExtends(t, base, path);
    var (k, n) := Longest(t.folders, base, path);
    CreateAllSucceedsIff(t, n, path[k..]);
    if CreatePath(t, base, path).1 != Null {
      var u := CreatePath(t, base, path).0;
      CreateAllIsFound(t, n, path[k..]);
      FoundThroughLongest(t, u.folders, base, path);
      FoundIsKept(u, base, path);
    }
  }

  lemma CreatePathExtends(t: Tree, base: NodeId, path: seq<string>)
    requires Sound(t) && Usable(base)
    ensures Extends(CreatePath(t, base, path).0.folders, t.folders)
  {
    PrefixIsUsable(t, base, path);
    var (k, n) := Prefix(t.folders, base, path);
    CreateAllExtends(t, n, path[k..]);
  }

  lemma FoundIsKept(u: Tree, base: NodeId, path: seq<string>)
    requires Sound(u) && Usable(base) && base != Null && FindPath(u.folders, base, path) != Null
    ensures CreatePath(u, base, path) == (u, FindPath(u.folders, base, path))
  {
  }

  lemma {:induction false} FoundThroughLongest(
      t: Tree, after: seq<FolderInfo>, base: NodeId, path: seq<string>)
    requires Sound(t) && Usable(base) && base != Null && Extends(after, t.folders)
    ensures var (k, n) := Longest(t.folders, base, path);
      k <= |path| && FindPath(after, base, path) == FindPath(after, n, path[k..])
    decreases |path|
  {
    if path != [] && Find(t.folders, base, path[0]) != Null {
      EntryIsSound(t, base, path[0]);
      ExtendsKeepsLookups(after, t.folders, base, path[0]);
      var next := Find(t.folders, base, path[0]);
      FoundThroughLongest(t, after, next, path[1..]);
      var k := Longest(t.folders, next, path[1..]).0;
      assert path[1..][k..] == path[k + 1..];
    } else {
      assert path[0..] == path;
    }
  }

  /** Below a node with a numeric id there is room for one folder only: the name is not part of the new id. */
  lemma NumericBaseCollides(t: Tree, number: nat, a: string, b: string)
    requires a != b && Find(t.folders, NumericId(number), a) == Null && Find(t.folders, NumericId(number), b) == Null
    ensures var u := CreateOne(t, NumericId(number), a).0; CreateOne(u, NumericId(number), b).1 == Null
  {
  }

  /** Folders below different numeric ids get different ids. */
  lemma NumericBasesDiffer(m: nat, n: nat, a: string, b: string)
    requires m != n
    ensures ChildId(NumericId(m), a) != ChildId(NumericId(n), b)
  {
    NatValuePrint(m);
    NatValuePrint(n);
    var p, q := PrintNat(m), PrintNat(n);
    assert ("/" + (p + "Dir"))[1..1 + |p|] == p && ("/" + (q + "Dir"))[1..1 + |q|] == q;
  }

  /** Of several entries for a folder, the first one is found. */
  lemma {:induction false} FirstEntryIsFound(folders: seq<FolderInfo>, i: nat, base: NodeId, name: string)
    requires i < |folders| && folders[i].folderName == name && folders[i].prevFolderNodeId == base
    requires forall j :: 0 <= j < i ==> !(folders[j].folderName == name && folders[j].prevFolderNodeId == base)
    ensures Find(folders, base, name) == folders[i].folderNodeId
  {
    if i > 0 { FirstEntryIsFound(folders[1..], i - 1, base, name); }
  }
}
