/** Which tags a written point carries, and which points the query of a node selects. */
module Tags {
  import opened InfluxTypes

  type Tag = TagInformation

  predicate OccursAt(s: string, part: string, i: nat) {
    i + |part| <= |s| && s[i..i + |part|] == part
  }

  ghost predicate Contains(s: string, part: string) { exists i :: OccursAt(s, part, i) }

  /** Index of the first tag with the given key, or the number of tags. */
  function Find(tags: seq<Tag>, key: string): (i: nat)
    ensures i <= |tags|
    ensures i < |tags| ==> tags[i].key == key
    ensures forall j :: 0 <= j < i ==> tags[j].key != key
  {
    if tags == [] || tags[0].key == key then 0 else 1 + Find(tags[1..], key)
  }

  /** An extra tag applies to every node, or to the nodes whose node id contains its source name. */
  ghost predicate Applies(extra: Tag, tags: seq<Tag>) {
    extra.sourceName == "" ||
    var i := Find(tags, "nodeId");
    i < |tags| && Contains(tags[i].value, extra.sourceName)
  }

  ghost function MergeOne(merged: seq<Tag>, extra: Tag): (r: seq<Tag>)
    ensures |merged| <= |r|
  {
    var i := Find(merged, extra.key);
    if i == |merged| then merged + [extra] else merged[i := merged[i].(value := extra.value)]
  }

  /** The loop over the extra tags; whether one applies is decided on the base tags. */
  ghost function Merge(base: seq<Tag>, extras: seq<Tag>): seq<Tag> {
    if extras == [] then base
    else
      var n := |extras| - 1;
      var merged := Merge(base, extras[..n]);
      if Applies(extras[n], base) then MergeOne(merged, extras[n]) else merged
  }

  method ContainsSubstring(s: string, part: string) returns (found: bool)
    ensures found == Contains(s, part)
  {
    found := false;
    var i := 0;
    while i + |part| <= |s|
      invariant forall k :: 0 <= k < i ==> !OccursAt(s, part, k)
      invariant !found
    {
      if OccursAt(s, part, i) { return true; }
      i := i + 1;
    }
  }

  method MergeTags(base: seq<Tag>, extras: seq<Tag>) returns (merged: seq<Tag>)
    ensures merged == Merge(base, extras)
  {
    merged := base;
    for k := 0 to |extras|
      invariant merged == Merge(base, extras[..k])
    {
      var tagInfo := extras[k];
      var update := tagInfo.sourceName == "";
      if !update {
        var sourceId := Find(base, "nodeId");
        if sourceId != |base| { update := ContainsSubstring(base[sourceId].value, tagInfo.sourceName); }
      }
      if update {
        var i := Find(merged, tagInfo.key);
        if i == |merged| {
          merged := merged + [tagInfo];
        } else {
          merged := merged[i := merged[i].(value := tagInfo.value)];
        }
      }
      assert extras[..k + 1][..k] == extras[..k];
    }
    assert extras[..|extras|] == extras;
  }

  // ---------------------------------------------------------------- last one wins

  ghost predicate UniqueKeys(tags: seq<Tag>) {
    forall i, j :: 0 <= i < j < |tags| ==> tags[i].key != tags[j].key
  }

  function Lookup(tags: seq<Tag>, key: string): Option<string> {
    var i := Find(tags, key);
    if i < |tags| then Some(tags[i].value) else None
  }

  /** The value that the applicable extra tags give to a key: the last one counts. */
  ghost function LastApplicable(base: seq<Tag>, extras: seq<Tag>, key: string): Option<string> {
    if extras == [] then None
    else
      var last := extras[|extras| - 1];
      if last.key == key && Applies(last, base) then Some(last.value)
      else LastApplicable(base, extras[..|extras| - 1], key)
  }

  lemma {:induction false} FindUnique(tags: seq<Tag>, i: nat, key: string)
    requires i <= |tags| && (i < |tags| ==> tags[i].key == key)
    requires forall j :: 0 <= j < i ==> tags[j].key != key
    ensures Find(tags, key) == i
  {
  }

  lemma MergeOneLookup(merged: seq<Tag>, extra: Tag, key: string)
    ensures Lookup(MergeOne(merged, extra), key) ==
            if key == extra.key then Some(extra.value) else Lookup(merged, key)
  {
    var r := MergeOne(merged, extra);
    if key == extra.key {
      FindUnique(r, Find(merged, key), key);
    } else {
      var i := Find(merged, key);
      FindUnique(r, if i == |merged| then |r| else i, key);
    }
  }

  /** Merging is a map whose extra entries override, the last one winning; base tags keep their order
      and their place, and keys stay unique. */
  lemma {:induction false} MergeIsLastWins(base: seq<Tag>, extras: seq<Tag>, key: string)
    ensures var merged := Merge(base, extras);
      && Lookup(merged, key) == (match LastApplicable(base, extras, key)
                                 case Some(v) => Some(v)
                                 case None => Lookup(base, key))
      && |base| <= |merged|
      && (forall i :: 0 <= i < |base| ==> merged[i].key == base[i].key)
      && (UniqueKeys(base) ==> UniqueKeys(merged))
  {
    if extras != [] {
      var n := |extras| - 1;
      MergeIsLastWins(base, extras[..n], key);
      if Applies(extras[n], base) {
        MergeOneLookup(Merge(base, extras[..n]), extras[n], key);
      }
    }
  }

  // ---------------------------------------------------------------- written points and read filters

  /** The context of a historized node. */
  datatype Context = Context(
    influxFieldName: string, nodeIdTagName: string, engineeringUnit: string, host: string,
    applicationName: string, port: nat)

  function Plain(key: string, value: string): Tag { TagInformation(key, value, "") }

  /** The tags by which a history read filters. */
  function FilterTags(ctx: Context, nodeId: string, port: string): seq<Tag> {
    [Plain(ctx.nodeIdTagName, nodeId), Plain("host", ctx.host),
     Plain("application", ctx.applicationName), Plain("port", port)]
  }

  /** The tags with which a history write starts. */
  function WriteTags(ctx: Context, nodeId: string, port: string, addNameTags: bool): seq<Tag> {
    FilterTags(ctx, nodeId, port)
    + (if ctx.engineeringUnit == "" then [] else [Plain("unit", ctx.engineeringUnit)])
    + (if addNameTags then [Plain("name", ctx.influxFieldName)] else [])
  }

  /** A stored point passes the filters of a query. */
  ghost predicate Selected(stored: seq<Tag>, filters: seq<Tag>) {
    forall i :: 0 <= i < |filters| ==> Lookup(stored, filters[i].key) == Some(filters[i].value)
  }

  /** There is no override, or it gives the same value. */
  predicate Leaves(override: Option<string>, value: string) { override.None? || override.value == value }

  /** No applicable extra tag gives a filtered key another value. */
  ghost predicate KeepsFilters(base: seq<Tag>, extras: seq<Tag>, filters: seq<Tag>) {
    forall i :: 0 <= i < |filters| ==>
      Leaves(LastApplicable(base, extras, filters[i].key), filters[i].value)
  }

  /** A point written for a node is found by the query for that node if and only if no applicable extra
      tag overrides one of the four filtered keys with another value. */
  lemma WrittenPointIsSelectedIff(
      ctx: Context, nodeId: string, port: string, addNameTags: bool, extras: seq<Tag>)
    requires ctx.nodeIdTagName == "nodeId"
    ensures var base := WriteTags(ctx, nodeId, port, addNameTags);
      var filters := FilterTags(ctx, nodeId, port);
      Selected(Merge(base, extras), filters) <==> KeepsFilters(base, extras, filters)
  {
    var base := WriteTags(ctx, nodeId, port, addNameTags);
    var filters := FilterTags(ctx, nodeId, port);
    FilterTagsDistinct(ctx, nodeId, port);
    assert filters <= base;
    forall i | 0 <= i < |filters|
      ensures Lookup(Merge(base, extras), filters[i].key) == Some(filters[i].value) <==>
              Leaves(LastApplicable(base, extras, filters[i].key), filters[i].value)
    {
      FilteredKeyIff(base, extras, filters, i);
    }
  }

  /** A query for a node selects the points that carry its id and the three names of the server, and no others. */
  lemma FiltersName(ctx: Context, nodeId: string, port: string, stored: seq<Tag>)
    ensures Selected(stored, FilterTags(ctx, nodeId, port)) <==>
            Lookup(stored, ctx.nodeIdTagName) == Some(nodeId) && Lookup(stored, "host") == Some(ctx.host) &&
            Lookup(stored, "application") == Some(ctx.applicationName) && Lookup(stored, "port") == Some(port)
  {
    hide Lookup;
    var f := FilterTags(ctx, nodeId, port);
    assert f[0] == Plain(ctx.nodeIdTagName, nodeId) && f[1] == Plain("host", ctx.host);
    assert f[2] == Plain("application", ctx.applicationName) && f[3] == Plain("port", port);
  }

  /** Which extra tags reach a node: those without a source name, and those whose source name is part of its id. */
  lemma AppliesToNodeIff(ctx: Context, nodeId: string, port: string, addNameTags: bool, extra: Tag)
    requires ctx.nodeIdTagName == "nodeId"
    ensures Applies(extra, WriteTags(ctx, nodeId, port, addNameTags)) <==>
            extra.sourceName == "" || exists before, after :: nodeId == before + extra.sourceName + after
  {
    var base := WriteTags(ctx, nodeId, port, addNameTags);
    assert base[0] == Plain("nodeId", nodeId);
    FindUnique(base, 0, "nodeId");
    var n := |extra.sourceName|;
    if i: nat :| OccursAt(nodeId, extra.sourceName, i) {
      assert nodeId == nodeId[..i] + extra.sourceName + nodeId[i + n..];
    }
    if before, after :| nodeId == before + extra.sourceName + after {
      assert OccursAt(nodeId, extra.sourceName, |before|);
    }
  }

  /** Without a node id among the tags, only extra tags without a source name apply. */
  lemma AppliesWithoutNode(base: seq<Tag>, extra: Tag)
    requires forall i :: 0 <= i < |base| ==> base[i].key != "nodeId"
    ensures Applies(extra, base) <==> extra.sourceName == ""
  {
    FindUnique(base, |base|, "nodeId");
  }

  lemma FilteredKeyIff(base: seq<Tag>, extras: seq<Tag>, filters: seq<Tag>, i: nat)
    requires UniqueKeys(filters) && filters <= base && i < |filters|
    ensures Lookup(Merge(base, extras), filters[i].key) == Some(filters[i].value) <==>
            Leaves(LastApplicable(base, extras, filters[i].key), filters[i].value)
  {
    assert forall j :: 0 <= j <= i ==> base[j] == filters[j];
    FindUnique(base, i, filters[i].key);
    MergeIsLastWins(base, extras, filters[i].key);
  }

  lemma FilterTagsDistinct(ctx: Context, nodeId: string, port: string)
    requires ctx.nodeIdTagName == "nodeId"
    ensures UniqueKeys(FilterTags(ctx, nodeId, port))
  {
    assert "nodeId"[0] == 'n' && "host"[0] == 'h' && "application"[0] == 'a' && "port"[0] == 'p';
  }

  /** An extra tag named "host" hides the node's points from its own history reads. */
  lemma HostTagHidesPoints(ctx: Context, nodeId: string, port: string)
    requires ctx.nodeIdTagName == "nodeId" && ctx.host == "a"
    ensures !Selected(Merge(WriteTags(ctx, nodeId, port, false), [Plain("host", "b")]),
                      FilterTags(ctx, nodeId, port))
  {
    var base := WriteTags(ctx, nodeId, port, false);
    var filters := FilterTags(ctx, nodeId, port);
    assert filters[1] == Plain("host", "a");
    MergeIsLastWins(base, [Plain("host", "b")], "host");
    assert "a"[0] != "b"[0];
    assert LastApplicable(base, [Plain("host", "b")], "host") == Some("b");
  }
}
