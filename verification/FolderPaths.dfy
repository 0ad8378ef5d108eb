/** The folder index as a set of paths: ids tell paths apart. */
module FolderPaths {
  import opened FolderIndex

  ghost predicate SlashFree(name: string) { '/' !in name }

  ghost predicate SlashFreePath(path: seq<string>) { forall i :: 0 <= i < |path| ==> SlashFree(path[i]) }

  function Suffix(path: seq<string>): string {
    if path == [] then "" else "/" + (path[0] + Suffix(path[1..]))
  }

  /** The id of a path; the root itself has the empty path. */
  function PathId(root: string, path: seq<string>): (id: NodeId)
    ensures id != Null && Usable(id)
  {
    StringId(root + (Suffix(path) + "Dir"))
  }

  /** Below the empty id, folders get the ids of paths whose root has no text. */
  lemma EmptyBaseIsRoot(name: string)
    ensures ChildId(StringId(""), name) == PathId("", [name])
  {
    assert Suffix([name]) == "/" + name by { assert [name][1..] == []; }
    assert "/" + (name + "Dir") == "" + (("/" + name) + "Dir");
  }

  lemma {:induction false} SuffixAppend(path: seq<string>, name: string)
    ensures Suffix(path + [name]) == Suffix(path) + ("/" + name)
  {
    if path == [] {
      assert path + [name] == [name];
      assert Suffix([name][1..]) == "";
      assert name + "" == name;
      assert Suffix([name]) == "/" + (name + "");
      assert Suffix(path) + ("/" + name) == "/" + name;
    } else {
      SuffixAppend(path[1..], name);
      assert (path + [name])[1..] == path[1..] + [name];
    }
  }

  lemma ChildOfPath(root: string, path: seq<string>, name: string)
    ensures ChildId(PathId(root, path), name) == PathId(root, path + [name])
  {
    hide Suffix;
    SuffixAppend(path, name);
    var s, t := Suffix(path), root + Suffix(path);
    assert root + (s + "Dir") == t + "Dir";
    assert (t + "Dir")[..|t| + 3 - 3] == t;
    assert t + ("/" + (name + "Dir")) == root + ((s + ("/" + name)) + "Dir");
  }

  lemma DescendFromPath(root: string, path: seq<string>, rest: seq<string>)
    ensures Descend(PathId(root, path), rest) == PathId(root, path + rest)
    decreases |rest|
  {
    hide PathId;
    if rest == [] {
      assert path + rest == path;
    } else {
      ChildOfPath(root, path, rest[0]);
      DescendFromPath(root, path + [rest[0]], rest[1..]);
      assert (path + [rest[0]]) + rest[1..] == path + rest;
    }
  }

  // ---------------------------------------------------------------- injectivity

  lemma {:induction false} SplitUnique(a: string, x: string, b: string, y: string)
    requires SlashFree(a) && SlashFree(b)
    requires (x == "" || x[0] == '/') && (y == "" || y[0] == '/')
    requires a + x == b + y
    ensures a == b && x == y
  {
    if a == "" {
      assert a + x == x;
      if b == "" { assert b + y == y; }
    } else {
      assert (a + x)[0] == a[0] && a[0] in a;
      assert b == "" ==> b + y == y;
      assert b != "" ==> (b + y)[0] == b[0];
      assert (a + x)[1..] == a[1..] + x && (b + y)[1..] == b[1..] + y;
      SplitUnique(a[1..], x, b[1..], y);
      assert a == [a[0]] + a[1..] && b == [b[0]] + b[1..];
    }
  }

  lemma {:induction false} SuffixInjective(p: seq<string>, q: seq<string>)
    requires SlashFreePath(p) && SlashFreePath(q) && Suffix(p) == Suffix(q)
    ensures p == q
  {
    if p != [] && q != [] {
      assert Suffix(p)[1..] == p[0] + Suffix(p[1..]) && Suffix(q)[1..] == q[0] + Suffix(q[1..]);
      SplitUnique(p[0], Suffix(p[1..]), q[0], Suffix(q[1..]));
      SuffixInjective(p[1..], q[1..]);
      assert p == [p[0]] + p[1..] && q == [q[0]] + q[1..];
    }
  }

  /** Different paths of names without slashes have different node ids. */
  lemma PathIdInjective(root: string, p: seq<string>, q: seq<string>)
    requires SlashFreePath(p) && SlashFreePath(q) && PathId(root, p) == PathId(root, q)
    ensures p == q
  {
    var a, b := Suffix(p) + "Dir", Suffix(q) + "Dir";
    assert (root + a)[|root|..] == a && (root + b)[|root|..] == b;
    assert a[..|a| - 3] == Suffix(p) && b[..|b| - 3] == Suffix(q);
    SuffixInjective(p, q);
  }

  /** A name cut at its slashes. */
  function Split(name: string): (parts: seq<string>)
    ensures parts != []
  {
    if name == "" then [""]
    else if name[0] == '/' then [""] + Split(name[1..])
    else var rest := Split(name[1..]); [[name[0]] + rest[0]] + rest[1..]
  }

  function SplitAll(path: seq<string>): seq<string> {
    if path == [] then [] else Split(path[0]) + SplitAll(path[1..])
  }

  lemma {:induction false} SplitIsSlashFree(name: string)
    ensures SlashFreePath(Split(name))
  {
    if name != "" {
      SplitIsSlashFree(name[1..]);
      if name[0] != '/' {
        var rest := Split(name[1..]);
        assert SlashFree(rest[0]);
        assert SlashFree([name[0]] + rest[0]);
      }
    }
  }

  lemma {:induction false} SplitAllIsSlashFree(path: seq<string>)
    ensures SlashFreePath(SplitAll(path))
  {
    if path != [] {
      SplitIsSlashFree(path[0]);
      SplitAllIsSlashFree(path[1..]);
    }
  }

  lemma {:induction false} SuffixConcat(a: seq<string>, b: seq<string>)
    ensures Suffix(a + b) == Suffix(a) + Suffix(b)
  {
    if a == [] {
      assert a + b == b;
    } else {
      SuffixConcat(a[1..], b);
      assert (a + b)[1..] == a[1..] + b;
      assert "/" + (a[0] + (Suffix(a[1..]) + Suffix(b))) == ("/" + (a[0] + Suffix(a[1..]))) + Suffix(b);
    }
  }

  lemma {:induction false} SuffixOfSplit(name: string)
    ensures Suffix(Split(name)) == "/" + name
  {
    if name == "" {
      assert Suffix([""]) == "/" + ("" + Suffix([""][1..]));
    } else {
      SuffixOfSplit(name[1..]);
      var rest := Split(name[1..]);
      assert [name[0]] + name[1..] == name;
      if name[0] == '/' {
        SuffixStep("", rest);
        assert "/" + ("" + ("/" + name[1..])) == "/" + name;
      } else {
        SuffixStep([name[0]] + rest[0], rest[1..]);
        var tail := rest[0] + Suffix(rest[1..]);
        assert ("/" + tail)[1..] == tail && ("/" + name[1..])[1..] == name[1..];
        assert ([name[0]] + rest[0]) + Suffix(rest[1..]) == [name[0]] + tail;
      }
    }
  }

  lemma SuffixStep(name: string, rest: seq<string>)
    ensures Suffix([name] + rest) == "/" + (name + Suffix(rest))
  {
    assert ([name] + rest)[1..] == rest;
  }

  lemma {:induction false} SuffixOfSplitAll(path: seq<string>)
    ensures Suffix(SplitAll(path)) == Suffix(path)
  {
    if path != [] {
      SuffixOfSplit(path[0]);
      SuffixOfSplitAll(path[1..]);
      SuffixConcat(Split(path[0]), SplitAll(path[1..]));
      assert ("/" + path[0]) + Suffix(path[1..]) == "/" + (path[0] + Suffix(path[1..]));
    }
  }

  /** Two paths share an id exactly if cutting their names at the slashes gives the same names. */
  lemma PathIdsCollideIff(root: string, p: seq<string>, q: seq<string>)
    ensures PathId(root, p) == PathId(root, q) <==> SplitAll(p) == SplitAll(q)
  {
    hide SplitAll, SlashFreePath, Suffix;
    SuffixOfSplitAll(p);
    SuffixOfSplitAll(q);
    SplitAllIsSlashFree(p);
    SplitAllIsSlashFree(q);
    assert PathId(root, SplitAll(p)) == PathId(root, p) && PathId(root, SplitAll(q)) == PathId(root, q);
    if PathId(root, p) == PathId(root, q) { PathIdInjective(root, SplitAll(p), SplitAll(q)); }
  }

  /** Such as these two. */
  lemma SlashesCollide(root: string)
    ensures PathId(root, ["a/b"]) == PathId(root, ["a", "b"])
  {
    assert Suffix(["a/b"][1..]) == "" && Suffix(["a", "b"][1..][1..]) == "";
    assert ["a", "b"][1..] == ["b"];
    assert Suffix(["a/b"]) == "/a/b" == Suffix(["a", "b"]);
  }

  // ---------------------------------------------------------------- the index as a set of paths

  function Last(path: seq<string>): string
    requires path != []
  {
    path[|path| - 1]
  }

  function Front(path: seq<string>): seq<string>
    requires path != []
  {
    path[..|path| - 1]
  }

  function EntryOf(root: string, path: seq<string>): FolderInfo
    requires path != []
  {
    FolderInfo(Last(path), PathId(root, path), PathId(root, Front(path)))
  }

  ghost predicate Paths(made: seq<seq<string>>) {
    forall i :: 0 <= i < |made| ==> made[i] != [] && SlashFreePath(made[i])
  }

  ghost predicate PrefixClosed(made: seq<seq<string>>)
    requires Paths(made)
  {
    forall i :: 0 <= i < |made| ==> |made[i]| == 1 || Front(made[i]) in made
  }

  /** The nodes that are no folders of the index leave the ids of all paths alone. */
  ghost predicate Elsewhere(root: string, foreign: set<NodeId>) {
    forall p: seq<string> :: p != [] && SlashFreePath(p) ==> PathId(root, p) !in foreign
  }

  ghost predicate Taken(root: string, made: seq<seq<string>>, id: NodeId) {
    exists i :: 0 <= i < |made| && PathId(root, made[i]) == id
  }

  /** The index holds the paths `made`, all of them below the root. */
  ghost predicate Rooted(t: Tree, root: string, foreign: set<NodeId>, made: seq<seq<string>>) {
    && Paths(made) && PrefixClosed(made) && Elsewhere(root, foreign)
    && |t.folders| == |made|
    && (forall i :: 0 <= i < |made| ==> t.folders[i] == EntryOf(root, made[i]))
    && (forall id :: id in t.nodes <==> id in foreign || Taken(root, made, id))
  }

  lemma EmptyIsRooted(root: string, foreign: set<NodeId>)
    requires Elsewhere(root, foreign)
    ensures Rooted(Tree([], foreign), root, foreign, [])
  {
  }

  lemma RootedIsSound(t: Tree, root: string, foreign: set<NodeId>, made: seq<seq<string>>)
    requires Rooted(t, root, foreign, made)
    ensures Sound(t)
  {
    hide PathId, SlashFreePath, Elsewhere, ChildId, Usable;
    forall i | 0 <= i < |t.folders| ensures SoundEntry(t.folders[i], t.nodes) {
      ChildOfPath(root, Front(made[i]), Last(made[i]));
      assert Front(made[i]) + [Last(made[i])] == made[i];
      assert Taken(root, made, PathId(root, made[i]));
    }
  }

  /** Lookup by node id and name is membership of the path. */
  lemma FindIsMembership(
      t: Tree, root: string, foreign: set<NodeId>, made: seq<seq<string>>, path: seq<string>, name: string)
    requires Rooted(t, root, foreign, made) && SlashFreePath(path) && SlashFree(name)
    ensures Find(t.folders, PathId(root, path), name) ==
            if path + [name] in made then PathId(root, path + [name]) else Null
  {
    hide PathId, SlashFree, PrefixClosed, Elsewhere, Taken, FindEntry;
    var r := FindEntry(t.folders, PathId(root, path), name);
    var full := path + [name];
    if r.Some? {
      var i :| 0 <= i < |t.folders| && t.folders[i] == FolderInfo(name, r.value, PathId(root, path));
      assert EntryOf(root, made[i]) == t.folders[i];
      PathIdInjective(root, Front(made[i]), path);
      assert made[i] == Front(made[i]) + [Last(made[i])];
    }
  }

  lemma {:induction false} ClosedDown(made: seq<seq<string>>, path: seq<string>, more: seq<string>)
    requires Paths(made) && PrefixClosed(made) && path != [] && path + more in made
    ensures path in made
    decreases |more|
  {
    if more == [] {
      assert path + more == path;
    } else {
      var i :| 0 <= i < |made| && made[i] == path + more;
      assert Front(path + more) == path + Front(more);
      ClosedDown(made, path, Front(more));
    }
  }

  lemma RootedPaths(t: Tree, root: string, foreign: set<NodeId>, made: seq<seq<string>>)
    requires Rooted(t, root, foreign, made)
    ensures Paths(made) && PrefixClosed(made)
  {
  }

  /** Lookup by path is membership as well. */
  lemma {:induction false} FindPathIsMembership(
      t: Tree, root: string, foreign: set<NodeId>, made: seq<seq<string>>, path: seq<string>, rest: seq<string>)
    requires Rooted(t, root, foreign, made) && SlashFreePath(path) && SlashFreePath(rest)
    ensures FindPath(t.folders, PathId(root, path), rest) ==
            if rest == [] || path + rest in made then PathId(root, path + rest) else Null
    decreases |rest|
  {
    hide PathId, SlashFree, Rooted, Find, Suffix;
    if rest == [] {
      assert path + rest == path;
    } else {
      var next := path + [rest[0]];
      assert |rest| == 1 ==> next == path + rest;
      RootedPaths(t, root, foreign, made);
      FindIsMembership(t, root, foreign, made, path, rest[0]);
      assert next + rest[1..] == path + rest;
      if next in made {
        FindPathIsMembership(t, root, foreign, made, next, rest[1..]);
      } else if path + rest in made {
        ClosedDown(made, next, rest[1..]);
      }
    }
  }

  // ---------------------------------------------------------------- creation adds the missing paths

  /** The paths after `path + rest` was asked for, whose first part `path` is there. */
  function WithPath(made: seq<seq<string>>, path: seq<string>, rest: seq<string>): seq<seq<string>>
    decreases |rest|
  {
    if rest == [] then made
    else
      var next := path + [rest[0]];
      WithPath(if next in made then made else made + [next], next, rest[1..])
  }

  lemma {:induction false} WithPathMembers(made: seq<seq<string>>, path: seq<string>, rest: seq<string>, p: seq<string>)
    ensures p in WithPath(made, path, rest) <==>
            p in made || exists k :: 0 < k <= |rest| && p == path + rest[..k]
    decreases |rest|
  {
    if rest != [] {
      var next := path + [rest[0]];
      WithPathMembers(if next in made then made else made + [next], next, rest[1..], p);
      assert rest[..1] == [rest[0]];
      forall k | 0 < k <= |rest| ensures path + rest[..k] == next + rest[1..][..k - 1] {
        assert rest[..k] == [rest[0]] + rest[1..][..k - 1];
      }
      if k :| 0 < k <= |rest[1..]| && p == next + rest[1..][..k] {
        assert path + rest[..k + 1] == next + rest[1..][..k];
      }
      if k :| 1 < k <= |rest| && p == path + rest[..k] {
        assert 0 < k - 1 <= |rest[1..]|;
      }
    }
  }

  lemma LongerPath(path: seq<string>, name: string)
    requires SlashFreePath(path) && SlashFree(name)
    ensures SlashFreePath(path + [name])
  {
  }

  lemma MissingIsFree(t: Tree, root: string, foreign: set<NodeId>, made: seq<seq<string>>, full: seq<string>)
    requires Rooted(t, root, foreign, made) && full != [] && SlashFreePath(full) && full !in made
    ensures PathId(root, full) !in t.nodes
  {
    hide PathId, SlashFreePath, PrefixClosed;
    var id := PathId(root, full);
    if Taken(root, made, id) {
      var i :| 0 <= i < |made| && PathId(root, made[i]) == id;
      PathIdInjective(root, made[i], full);
      assert false;
    }
  }

  lemma CreateOneAddsPath(
      t: Tree, root: string, foreign: set<NodeId>, made: seq<seq<string>>, path: seq<string>, name: string)
    requires Rooted(t, root, foreign, made) && SlashFreePath(path) && SlashFree(name)
    requires path == [] || path in made
    requires path + [name] !in made
    ensures CreateOne(t, PathId(root, path), name).1 == PathId(root, path + [name])
    ensures Rooted(CreateOne(t, PathId(root, path), name).0, root, foreign, made + [path + [name]])
  {
    hide PathId, Suffix, Rooted, Find, ChildId, Usable, SlashFreePath;
    var full := path + [name];
    var id := PathId(root, full);
    FindIsMembership(t, root, foreign, made, path, name);
    ChildOfPath(root, path, name);
    assert SlashFreePath(full) by { LongerPath(path, name); }
    MissingIsFree(t, root, foreign, made, full);
    var u := CreateOne(t, PathId(root, path), name).0;
    assert u == Tree(t.folders + [FolderInfo(name, id, PathId(root, path))], t.nodes + {id});
    assert Last(full) == name && Front(full) == path;
    AddedIsRooted(t, root, foreign, made, full);
  }

  lemma AddedIsRooted(t: Tree, root: string, foreign: set<NodeId>, made: seq<seq<string>>, full: seq<string>)
    requires Rooted(t, root, foreign, made) && full != [] && SlashFreePath(full)
    requires |full| == 1 || Front(full) in made
    ensures Rooted(
      Tree(t.folders + [EntryOf(root, full)], t.nodes + {PathId(root, full)}), root, foreign, made + [full])
  {
    hide PathId, Suffix, SlashFreePath;
    var more := made + [full];
    assert Paths(more) && PrefixClosed(more);
    forall id ensures Taken(root, more, id) <==> Taken(root, made, id) || id == PathId(root, full) {
      assert more[|made|] == full;
      if i :| 0 <= i < |made| && PathId(root, made[i]) == id { assert more[i] == made[i]; }
    }
  }

  lemma {:induction false} CreateAllAddsPaths(
      t: Tree, root: string, foreign: set<NodeId>, made: seq<seq<string>>, path: seq<string>, rest: seq<string>)
    requires Rooted(t, root, foreign, made) && SlashFreePath(path) && SlashFreePath(rest)
    requires path == [] || path in made
    requires rest == [] || path + [rest[0]] !in made
    ensures var (u, id) := CreateAll(t, PathId(root, path), rest);
      id == PathId(root, path + rest) && Rooted(u, root, foreign, WithPath(made, path, rest))
    decreases |rest|
  {
    hide PathId, Suffix, Rooted, CreateOne, Find, SlashFree, Paths, PrefixClosed;
    if rest == [] {
      assert path + rest == path;
    } else {
      RootedPaths(t, root, foreign, made);
      var next, more := path + [rest[0]], made + [path + [rest[0]]];
      CreateOneAddsPath(t, root, foreign, made, path, rest[0]);
      if |rest| > 1 && next + [rest[1]] in made { ClosedDown(made, next, [rest[1]]); }
      assert next + rest[1..] == path + rest;
      CreateAllAddsPaths(CreateOne(t, PathId(root, path), rest[0]).0, root, foreign, more, next, rest[1..]);
    }
  }

  lemma {:induction false} LongestIsMade(
      t: Tree, root: string, foreign: set<NodeId>, made: seq<seq<string>>, path: seq<string>, rest: seq<string>)
    requires Rooted(t, root, foreign, made) && SlashFreePath(path) && SlashFreePath(rest)
    requires path == [] || path in made
    ensures var (k, n) := Longest(t.folders, PathId(root, path), rest);
      && k <= |rest| && n == PathId(root, path + rest[..k])
      && (path + rest[..k] == [] || path + rest[..k] in made)
      && (k == |rest| || (path + rest[..k]) + [rest[k]] !in made)
      && WithPath(made, path, rest) == WithPath(made, path + rest[..k], rest[k..])
    decreases |rest|
  {
    hide PathId, Suffix, Rooted, Find, SlashFree;
    var k := Longest(t.folders, PathId(root, path), rest).0;
    if rest != [] { FindIsMembership(t, root, foreign, made, path, rest[0]); }
    if rest == [] || path + [rest[0]] !in made {
      assert path + rest[..0] == path && rest[0..] == rest;
    } else {
      var next := path + [rest[0]];
      LongestIsMade(t, root, foreign, made, next, rest[1..]);
      assert k == 1 + Longest(t.folders, PathId(root, next), rest[1..]).0;
      assert next + rest[1..][..k - 1] == path + rest[..k];
      assert rest[1..][k - 1..] == rest[k..];
    }
  }

  /**
   * Below one root and with names without slashes, createFolderPath always succeeds, and the index stays a
   * faithful picture of a set of paths closed under prefixes, to which it adds the prefixes of the path.
   */
  lemma CreatePathRefinesPathSet(
      t: Tree, root: string, foreign: set<NodeId>, made: seq<seq<string>>, path: seq<string>)
    requires Rooted(t, root, foreign, made) && SlashFreePath(path)
    ensures Sound(t)
    ensures var (u, id) := CreatePath(t, PathId(root, []), path);
      id == PathId(root, path) && Rooted(u, root, foreign, WithPath(made, [], path))
    ensures forall p :: p in WithPath(made, [], path) <==> p in made || exists k :: 0 < k <= |path| && p == path[..k]
  {
    hide CreatePath, CreateAll, Longest, Rooted, WithPath, PathId;
    RootedIsSound(t, root, foreign, made);
    var base := PathId(root, []);
    CreatePathResumes(t, base, path);
    LongestIsMade(t, root, foreign, made, [], path);
    var k := Longest(t.folders, base, path).0;
    assert [] + path[..k] == path[..k] && path[..k] + path[k..] == path;
    CreateAllAddsPaths(t, root, foreign, made, path[..k], path[k..]);
    forall p ensures p in WithPath(made, [], path) <==> p in made || exists k :: 0 < k <= |path| && p == path[..k] {
      WithPathMembers(made, [], path, p);
      assert forall k :: 0 < k <= |path| ==> [] + path[..k] == path[..k];
    }
  }

  // ---------------------------------------------------------------- any sequence of calls

  /** createFolderPath below the root, for one path after the other. */
  function CreatePaths(t: Tree, root: string, paths: seq<seq<string>>): (r: (Tree, seq<NodeId>))
    requires Sound(t)
    ensures Sound(r.0)
  {
    if paths == [] then (t, [])
    else
      var (u, ids) := CreatePaths(t, root, paths[..|paths| - 1]);
      CreatePathKeepsSound(u, PathId(root, []), paths[|paths| - 1]);
      var (v, id) := CreatePath(u, PathId(root, []), paths[|paths| - 1]);
      (v, ids + [id])
  }

  function WithPaths(made: seq<seq<string>>, paths: seq<seq<string>>): seq<seq<string>> {
    if paths == [] then made
    else WithPath(WithPaths(made, paths[..|paths| - 1]), [], paths[|paths| - 1])
  }

  /** The paths in the index are the prefixes of those asked for. */
  ghost predicate IsPrefixOfOne(p: seq<string>, paths: seq<seq<string>>) {
    exists i :: 0 <= i < |paths| && p != [] && p <= paths[i]
  }

  /**
   * From the empty index, any sequence of calls succeeds every time, and leaves an index that holds exactly the
   * prefixes of the paths asked for, each found at its path.
   */
  lemma {:induction false} AnyCallsRefinePathSet(root: string, foreign: set<NodeId>, paths: seq<seq<string>>)
    requires Elsewhere(root, foreign) && forall i :: 0 <= i < |paths| ==> SlashFreePath(paths[i])
    ensures Sound(Tree([], foreign))
    ensures var (u, ids) := CreatePaths(Tree([], foreign), root, paths);
      && |ids| == |paths| && (forall i :: 0 <= i < |ids| ==> ids[i] == PathId(root, paths[i]))
      && Rooted(u, root, foreign, WithPaths([], paths))
    ensures forall p :: p in WithPaths([], paths) <==> IsPrefixOfOne(p, paths)
  {
    hide Rooted, CreatePath, WithPath, PathId, Elsewhere, Sound;
    EmptyIsRooted(root, foreign);
    RootedIsSound(Tree([], foreign), root, foreign, []);
    if paths != [] {
      var front, last := paths[..|paths| - 1], paths[|paths| - 1];
      AnyCallsRefinePathSet(root, foreign, front);
      var u := CreatePaths(Tree([], foreign), root, front).0;
      var made := WithPaths([], front);
      CreatePathRefinesPathSet(u, root, foreign, made, last);
      forall p ensures p in WithPaths([], paths) <==> IsPrefixOfOne(p, paths) {
        PrefixStep(p, front, last, made);
        assert front + [last] == paths;
      }
    }
  }

  lemma PrefixStep(p: seq<string>, front: seq<seq<string>>, last: seq<string>, made: seq<seq<string>>)
    requires p in made <==> IsPrefixOfOne(p, front)
    ensures p in made || (exists k :: 0 < k <= |last| && p == last[..k]) <==> IsPrefixOfOne(p, front + [last])
  {
    var paths := front + [last];
    assert paths[|front|] == last;
    if p != [] && p <= last { assert p == last[..|p|]; }
    if i :| 0 <= i < |front| && p != [] && p <= front[i] { assert p <= paths[i]; }
  }
}
