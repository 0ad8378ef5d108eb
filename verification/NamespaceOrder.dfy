/** Sorting the nodes before they are printed, and what that saves. */
module NamespaceOrder {
  import opened InfluxTypes
  import N = NodeOrder
  import opened NodeGraph
  import opened NamespacePrinter
  import opened NamespaceProgram
  import opened Bootstrap

  /** The reference types that count as type definitions and as subtype references. */
  datatype TypeRefs = TypeRefs(definitions: set<NodeId>, subtypes: set<NodeId>)

  function KindOf(r: Ref, types: TypeRefs): N.Kind {
    if r.referenceType in types.definitions && r.isForward then N.TypeDefinition
    else if r.referenceType in types.subtypes && !r.isForward then N.InverseSubtype
    else if r.isForward then N.OrdinaryForward
    else N.OrdinaryInverse
  }

  function IndexOf(nodes: seq<NodeId>, n: NodeId): (i: nat)
    requires n in nodes
    ensures i < |nodes| && nodes[i] == n
  {
    if nodes[0] == n then 0 else assert nodes == [nodes[0]] + nodes[1..]; 1 + IndexOf(nodes[1..], n)
  }

  /** The references of a node with the positions of their targets. */
  function Row(nodes: seq<NodeId>, own: seq<Ref>, types: TypeRefs): (row: seq<N.Ref>)
    requires forall r :: r in own ==> r.target in nodes
    ensures |row| == |own|
    ensures forall k :: 0 <= k < |own| ==> row[k] == N.Ref(IndexOf(nodes, own[k].target), KindOf(own[k], types))
  {
    if own == [] then []
    else
      assert own[0] in own && forall r :: r in own[1..] ==> r in own;
      [N.Ref(IndexOf(nodes, own[0].target), KindOf(own[0], types))] + Row(nodes, own[1..], types)
  }

  /** The rows of the first k nodes. */
  function Rows(g: Graph, types: TypeRefs, k: nat): (rows: seq<seq<N.Ref>>)
    requires Resolved(g) && k <= |g.nodes|
    ensures |rows| == k && forall i :: 0 <= i < k ==> rows[i] == RowOf(g, types, i)
  {
    if k == 0 then [] else Rows(g, types, k - 1) + [RowOf(g, types, k - 1)]
  }

  function RowOf(g: Graph, types: TypeRefs, i: nat): seq<N.Ref>
    requires Resolved(g) && i < |g.nodes|
  {
    assert g.nodes[i] in g.nodes;
    Row(g.nodes, g.refs[g.nodes[i]], types)
  }

  function AllRows(g: Graph, types: TypeRefs): seq<seq<N.Ref>>
    requires Resolved(g)
  {
    Rows(g, types, |g.nodes|)
  }

  lemma RowsAreIndexed(g: Graph, types: TypeRefs)
    requires Resolved(g)
    ensures N.Indexed(AllRows(g, types))
  {
    hide Resolved;
    var rows: seq<seq<N.Ref>> := AllRows(g, types);
    forall n: nat, k: nat | 0 <= n < |rows| && 0 <= k < |rows[n]| ensures rows[n][k].target < |rows| {
      RowIsIndexed(g, types, n, k);
    }
  }

  lemma RowIsIndexed(g: Graph, types: TypeRefs, n: nat, k: nat)
    requires Resolved(g) && n < |g.nodes| && k < |RowOf(g, types, n)|
    ensures RowOf(g, types, n)[k].target < |g.nodes|
  {
    assert g.nodes[n] in g.nodes;
    assert g.refs[g.nodes[n]][k] in g.refs[g.nodes[n]];
  }

  function Permuted(nodes: seq<NodeId>, order: seq<nat>): (r: seq<NodeId>)
    requires forall k :: 0 <= k < |order| ==> order[k] < |nodes|
    ensures |r| == |order| && forall k :: 0 <= k < |order| ==> r[k] == nodes[order[k]]
  {
    if order == [] then [] else [nodes[order[0]]] + Permuted(nodes, order[1..])
  }

  function Reordered(g: Graph, order: seq<nat>): Graph
    requires N.Permutation(order, |g.nodes|)
  {
    g.(nodes := Permuted(g.nodes, order))
  }

  lemma ReorderedIsLinked(g: Graph, order: seq<nat>)
    requires Linked(g) && N.Permutation(order, |g.nodes|)
    ensures Linked(Reordered(g, order))
    ensures forall n :: n in Reordered(g, order).nodes <==> n in g.nodes
  {
    var h := Reordered(g, order);
    forall n | n in g.nodes ensures n in h.nodes {
      var i :| 0 <= i < |g.nodes| && g.nodes[i] == n;
      assert i in order;
      var k :| 0 <= k < |order| && order[k] == i;
      assert h.nodes[k] == n;
    }
    forall n | n in h.nodes ensures n in g.nodes {
      var k :| 0 <= k < |h.nodes| && h.nodes[k] == n;
      assert g.nodes[order[k]] == n;
    }
    assert Resolved(h);
    SameReferences(g, h);
  }

  lemma SameReferences(g: Graph, h: Graph)
    requires Linked(g) && Resolved(h) && h.refs == g.refs
    ensures Linked(h)
  {
    forall r | Holds(h, r) && !r.isForward ensures Mirrored(h, r) {
      assert Holds(g, r) && Mirrored(g, r);
      var m :| Holds(g, m) && m.parent == r.target && m.target == r.parent &&
               m.referenceType == r.referenceType && m.isForward;
      assert Holds(h, m);
    }
  }

  /** The nodes are sorted in place first; then reference types in use and all nodes are printed. */
  method PrintOpen62541Header(
      g: Graph, printedExternally: set<NodeId>, namespace0: set<NodeId>, types: TypeRefs)
      returns (code: seq<Op>, order: seq<nat>)
    requires Linked(g) && forall n :: n in printedExternally ==> n in g.refs
    ensures N.Permutation(order, |g.nodes|) && N.Greedy(AllRows(g, types), order)
    ensures var h := Reordered(g, order);
      code == PrintAll(h, Initial(h, printedExternally), PrintOrder(h, namespace0)).code
      && TypesFirst(h, printedExternally, namespace0, code)
  {
    hide Linked, N.Greedy, N.Permutation, N.Indexed, PrintAll, PrintOrder, Initial, Permuted, TypesFirst;
    LinkedIsResolved(g);
    RowsAreIndexed(g, types);
    order := N.ReorderNodesMinDependencies(AllRows(g, types));
    N.GreedyIsPermutation(AllRows(g, types), order);
    ReorderedIsLinked(g, order);
    code := PrintNamespace(Reordered(g, order), printedExternally, namespace0);
    TypesComeFirst(Reordered(g, order), printedExternally, namespace0);
  }

  // ---------------------------------------------------------------- what sorting saves

  lemma {:induction false} FirstParentInReordered(g: Graph, h: Graph, n: NodeId, refs: seq<Ref>)
    requires h.refs == g.refs
    ensures FirstParentIn(h, n, refs) == FirstParentIn(g, n, refs)
  {
    if refs != [] { FirstParentInReordered(g, h, n, refs[1..]); }
  }

  /** The place of a reference in the rows. */
  lemma PlaceOf(g: Graph, types: TypeRefs, p: Ref) returns (i: nat, k: nat)
    requires Resolved(g) && Holds(g, p)
    ensures i < |g.nodes| && g.nodes[i] == p.parent && k < |RowOf(g, types, i)|
    ensures RowOf(g, types, i)[k].target < |g.nodes| && g.nodes[RowOf(g, types, i)[k].target] == p.target
    ensures RowOf(g, types, i)[k].kind == KindOf(p, types)
  {
    assert p.parent in g.nodes && p.target in g.nodes;
    i := IndexOf(g.nodes, p.parent);
    var own := g.refs[p.parent];
    k :| 0 <= k < |own| && own[k] == p;
  }

  /** An ordinary forward reference of the graph is one of the rows. */
  lemma RowsRefer(g: Graph, types: TypeRefs, p: Ref) returns (i: nat, j: nat)
    requires Resolved(g) && Holds(g, p) && KindOf(p, types) == N.OrdinaryForward
    ensures i < |g.nodes| && g.nodes[i] == p.parent && j < |g.nodes| && g.nodes[j] == p.target
    ensures N.Refers(AllRows(g, types), i, j)
  {
    hide Resolved, Holds, Row;
    var k;
    i, k := PlaceOf(g, types, p);
    j := RowOf(g, types, i)[k].target;
    assert AllRows(g, types)[i][k] == N.Ref(j, N.OrdinaryForward);
  }

  /** Places in the order, and the nodes there. */
  lemma PlacesOf(g: Graph, order: seq<nat>, i: nat, j: nat) returns (a: nat, b: nat)
    requires N.Precedes(order, i, j) && i < |g.nodes| && j < |g.nodes|
    ensures a < b < |order| && order[a] == i && order[b] == j
  {
    a, b :| 0 <= a < b < |order| && order[a] == i && order[b] == j;
  }

  /** The place at which a node is printed is one at which its parent is. */
  ghost predicate CreatedBelowParent(h: Graph, ignored: set<NodeId>, order: seq<NodeId>, n: NodeId) {
    exists k, e :: 0 <= k < |order| && order[k] == n && ParentEdgeAt(h, ignored, order, k, e)
  }

  /**
   * Where types do not get lighter along ordinary forward references, and parents refer to their children by such
   * references, sorting leaves nothing to bootstrap but nodes without a parent and the reference types in use: every
   * other node is created below its parent.
   */
  lemma SortingCreatesBelowParents(g: Graph, types: TypeRefs, order: seq<nat>, rank: seq<nat>,
      ignored: set<NodeId>, namespace0: set<NodeId>, n: NodeId)
    requires Linked(g) && N.Permutation(order, |g.nodes|) && N.Greedy(AllRows(g, types), order)
    requires N.Typed(AllRows(g, types), rank)
    requires FirstParent(g, n).Some? ==> KindOf(FirstParent(g, n).value, types) == N.OrdinaryForward
    requires n in g.nodes && n !in ignored
    requires var h := Reordered(g, order); var refs := AllReferences(h, h.nodes);
      n !in RefsUsed(refs, |refs|, namespace0)
    ensures var h := Reordered(g, order);
      CreatedBelowParent(h, ignored, PrintOrder(h, namespace0), n) <==> FirstParent(g, n).Some?
  {
    hide Linked, N.Greedy, N.Typed, FirstParentIn, AllReferences, RefsUsed, Resolved, N.Refers, N.Precedes;
    LinkedIsResolved(g);
    var h := Reordered(g, order);
    SameFirstParent(g, h, n);
    if FirstParent(g, n).Some? {
      var p := FirstParent(g, n).value;
      ParentHolds(g, n);
      var i, j := RowsRefer(g, types, p);
      N.ReferencedAfterReferencing(AllRows(g, types), rank, order, i, j);
      var a, b := PlacesOf(g, order, i, j);
      PlaceAfterParent(g, order, ignored, namespace0, n, p, a, b);
    }
  }

  lemma SameFirstParent(g: Graph, h: Graph, n: NodeId)
    requires h.refs == g.refs
    ensures FirstParent(h, n) == FirstParent(g, n)
  {
    if n in g.refs { FirstParentInReordered(g, h, n, g.refs[n]); }
  }

  lemma PlaceAfterParent(g: Graph, order: seq<nat>, ignored: set<NodeId>, namespace0: set<NodeId>,
      n: NodeId, p: Ref, a: nat, b: nat)
    requires Resolved(g) && N.Permutation(order, |g.nodes|) && a < b < |order|
    requires g.nodes[order[a]] == p.parent && g.nodes[order[b]] == p.target == n && p.isForward
    requires n in g.nodes && n !in ignored
    requires var h := Reordered(g, order); var refs := AllReferences(h, h.nodes);
      FirstParent(h, n) == FirstParent(g, n) == Some(p) && n !in RefsUsed(refs, |refs|, namespace0)
    ensures var h := Reordered(g, order); CreatedBelowParent(h, ignored, PrintOrder(h, namespace0), n)
  {
    hide AllReferences, RefsUsed, FirstParent, ParentEdgeAt;
    var h := Reordered(g, order);
    var refs := AllReferences(h, h.nodes);
    var used := RefsUsed(refs, |refs|, namespace0);
    forall c | 0 <= c < b ensures h.nodes[c] != n { assert order[c] != order[b]; }
    EdgeAtPlace(h, ignored, used, a, b, p);
  }

  /** A node that is printed after its parent is created below it. */
  lemma EdgeAtPlace(h: Graph, ignored: set<NodeId>, used: seq<NodeId>, a: nat, b: nat, p: Ref)
    requires a < b < |h.nodes| && h.nodes[a] == p.parent && h.nodes[b] == p.target
    requires FirstParent(h, p.target) == Some(p) && p.target !in ignored && p.target !in used
    requires forall c :: 0 <= c < b ==> h.nodes[c] != p.target
    ensures var list := used + h.nodes;
      && list[|used| + b] == p.target
      && ParentEdgeAt(h, ignored, list, |used| + b, Edge(p.parent, p.referenceType, p.target))
  {
    hide FirstParent;
    var list, k := used + h.nodes, |used| + b;
    assert list[..k] == used + h.nodes[..b];
    assert h.nodes[..b][a] == p.parent;
  }

  /**
   * A parent whose types are heavier than those of its child and all references to the child comes too late: the
   * child is bootstrapped.
   */
  lemma HeavierParentIsLater(g: Graph, types: TypeRefs, order: seq<nat>, ignored: set<NodeId>,
      namespace0: set<NodeId>, p: Ref, i: nat, j: nat)
    requires Linked(g) && N.Permutation(order, |g.nodes|) && N.Greedy(AllRows(g, types), order)
    requires FirstParent(g, p.target) == Some(p) && i < |g.nodes| && g.nodes[i] == p.parent
    requires j < |g.nodes| && g.nodes[j] == p.target
    requires var rows := AllRows(g, types);
      N.Own(rows, j) + |N.WaitingFor(rows, [], j, |rows|)| < N.Own(rows, i)
    requires p.parent !in ignored
    requires var h := Reordered(g, order); var refs := AllReferences(h, h.nodes);
      p.parent !in RefsUsed(refs, |refs|, namespace0)
    ensures var h := Reordered(g, order); !CreatedBelowParent(h, ignored, PrintOrder(h, namespace0), p.target)
  {
    hide Linked, N.Greedy, FirstParent, AllReferences, RefsUsed, Resolved, N.Precedes, N.Own, N.WaitingFor, N.Indexed;
    LinkedIsResolved(g);
    var rows, h := AllRows(g, types), Reordered(g, order);
    RowsAreIndexed(g, types);
    N.LightComesFirst(rows, order, j, i);
    SameFirstParent(g, h, p.target);
    var b, a := PlacesOf(g, order, j, i);
    var refs := AllReferences(h, h.nodes);
    var used := RefsUsed(refs, |refs|, namespace0);
    forall k, e | 0 <= k < |used + h.nodes| && (used + h.nodes)[k] == p.target
      ensures !ParentEdgeAt(h, ignored, used + h.nodes, k, e) {
      LaterParentIsMissing(g, order, used, p, a, b, k);
    }
  }

  lemma LaterParentIsMissing(g: Graph, order: seq<nat>, used: seq<NodeId>, p: Ref, a: nat, b: nat, k: nat)
    requires N.Permutation(order, |g.nodes|) && NoDuplicates(g.nodes) && b < a < |order|
    requires g.nodes[order[b]] == p.target && g.nodes[order[a]] == p.parent && p.parent !in used
    requires k <= |used + Reordered(g, order).nodes|
    ensures var list := used + Reordered(g, order).nodes; p.target !in list[..k] ==> p.parent !in list[..k]
  {
    var nodes := Reordered(g, order).nodes;
    var list := used + nodes;
    assert k > |used| + b ==> list[..k][|used| + b] == nodes[b] == p.target;
    if p.target !in list[..k] {
      forall c | 0 <= c < k ensures list[..k][c] != p.parent {
        if c >= |used| {
          assert list[c] == nodes[c - |used|] == g.nodes[order[c - |used|]] && order[c - |used|] != order[a];
        } else {
          assert list[c] == used[c] && used[c] in used;
        }
      }
    }
  }

  // ---------------------------------------------------------------- from the graph as read to its edges

  /** The inversion pass adds no edge: what the program is compared with is the graph as it was read. */
  lemma EnrichedInput(before: Graph, after: Graph, e: Edge)
    requires Enriched(before, after)
    ensures InputEdge(after, e) <==> InputEdge(before, e)
  {
    hide Enriched, Holds;
    InputIsEdge(before, e);
    InputIsEdge(after, e);
    SameEdges(before, after, e);
  }

  lemma InputIsEdge(g: Graph, e: Edge)
    ensures InputEdge(g, e) <==> HasEdge(g, e) && e.source != e.target
  {
    hide Holds;
    if HasEdge(g, e) && e.source != e.target {
      var r :| Holds(g, r) && Norm(r) == e;
      assert !Self(r);
    }
  }

  lemma SameEdges(before: Graph, after: Graph, e: Edge)
    requires Enriched(before, after)
    ensures HasEdge(after, e) <==> HasEdge(before, e)
  {
    hide HasEdge;
  }

  /** The server after the generated program has run on one that knows the ignored nodes. */
  function Run(ignored: set<NodeId>, code: seq<Op>): Option<Server> { Exec(Server(ignored, {}), code) }

  /** What the whole compilation of a graph read from files promises. */
  ghost predicate Compiled(before: Graph, h: Graph, ignored: set<NodeId>, list: seq<NodeId>, code: seq<Op>) {
    && Run(ignored, code).Some?
    && (forall n :: n in Run(ignored, code).value.nodes <==> n in before.nodes)
    && (Faithful(before, ignored, Run(ignored, code).value.edges) <==> ParentsAreInput(h, ignored, list))
  }

  lemma EndToEnd(before: Graph, g: Graph, order: seq<nat>, ignored: set<NodeId>, namespace0: set<NodeId>)
    requires Enriched(before, g) && Linked(g) && N.Permutation(order, |g.nodes|)
    requires forall n :: n in ignored ==> n in g.refs
    ensures var h := Reordered(g, order);
      Compiled(before, h, ignored, PrintOrder(h, namespace0),
               PrintAll(h, Initial(h, ignored), PrintOrder(h, namespace0)).code)
  {
    hide Linked, Enriched, N.Permutation, PrintAll, Initial, Exec, InputEdge, ParentsAreInput, ParentEdges, ToPrintEdge,
         AllReferences, RefsUsed;
    var h := Reordered(g, order);
    var list := PrintOrder(h, namespace0);
    ReorderedIsLinked(g, order);
    NodesAreKept(before, g);
    assert forall n :: n in h.nodes ==> n in list;
    ProgramRebuilds(h, ignored, list);
    FaithfulIff(h, ignored, list);
    forall e ensures InputEdge(h, e) <==> InputEdge(before, e) {
      EnrichedInput(before, g, e);
      SameInput(g, h, e);
    }
  }

  lemma SameInput(g: Graph, h: Graph, e: Edge)
    requires h.refs == g.refs
    ensures InputEdge(h, e) <==> InputEdge(g, e)
  {
    assert forall r :: Holds(h, r) <==> Holds(g, r);
  }

  /**
   * The whole way: the graph is linked in place, sorted and printed, and running the program creates every node and
   * builds the edges of the graph as it was read, if and only if the edges from parents are among them.
   */
  method CompileNamespace(
      namespace: Namespace, printedExternally: set<NodeId>, namespace0: set<NodeId>, types: TypeRefs)
      returns (code: seq<Op>, order: seq<nat>)
    requires Resolved(namespace.View()) && forall n :: n in printedExternally ==> n in namespace.references
    modifies namespace
    ensures Linked(namespace.View()) && Enriched(old(namespace.View()), namespace.View())
    ensures N.Permutation(order, |namespace.nodes|)
    ensures var h := Reordered(namespace.View(), order);
      Compiled(old(namespace.View()), h, printedExternally, PrintOrder(h, namespace0), code)
      && TypesFirst(h, printedExternally, namespace0, code)
  {
    hide Linked, Enriched, N.Permutation, N.Greedy, PrintAll, Initial, PrintOrder, Compiled, Permuted, TypesFirst;
    ghost var before := namespace.View();
    ReferencesOfNodes(before);
    namespace.InvertReferences();
    NodesAreKept(before, namespace.View());
    var g := Graph(namespace.nodes, namespace.references, namespace.next);
    code, order := PrintOpen62541Header(g, printedExternally, namespace0, types);
    EndToEnd(before, g, order, printedExternally, namespace0);
  }

  lemma ReferencesOfNodes(g: Graph)
    requires Resolved(g)
    ensures forall n :: n in g.refs <==> n in g.nodes
  {
  }

  // ---------------------------------------------------------------- two graphs

  /** The graph of N.TypedNodes: an instance, its type, two supertypes, and the two reference types. */
  function TypedGraph(): Graph {
    Graph([0, 1, 2, 3, 4, 5],
          map[0 := [Ref(0, 0, 1, 4, true)],
              1 := [Ref(1, 1, 2, 5, false), Ref(2, 1, 3, 5, false)],
              2 := [Ref(3, 2, 1, 5, true)],
              3 := [Ref(4, 3, 1, 5, true)], 4 := [], 5 := []], 5)
  }

  lemma TypedGraphHolds(r: Ref)
    ensures Holds(TypedGraph(), r) <==>
            r == Ref(0, 0, 1, 4, true) || r == Ref(1, 1, 2, 5, false) || r == Ref(2, 1, 3, 5, false) ||
            r == Ref(3, 2, 1, 5, true) || r == Ref(4, 3, 1, 5, true)
  {
  }

  lemma TypedGraphResolved()
    ensures Resolved(TypedGraph())
  {
    var g := TypedGraph();
    forall n, r | n in g.refs && r in g.refs[n]
      ensures r.parent == n && r.target in g.refs && r.referenceType in g.refs && r.number < g.next {}
    forall n | n in g.refs ensures NoDuplicates(g.refs[n]) {}
  }

  lemma TypedGraphLinked()
    ensures Linked(TypedGraph())
  {
    hide TypedGraph, Resolved, Holds;
    TypedGraphResolved();
    var g := TypedGraph();
    forall r | Holds(g, r) && !r.isForward ensures Mirrored(g, r) {
      TypedGraphHolds(r);
      TypedGraphHolds(Ref(3, 2, 1, 5, true));
      TypedGraphHolds(Ref(4, 3, 1, 5, true));
    }
  }

  /** In a linked namespace, a type comes after its instance, whatever else holds. */
  lemma LinkedTypeAfterInstance(order: seq<nat>)
    requires N.Greedy(N.TypedNodes(), order) && |order| == 6
    ensures Linked(TypedGraph()) && AllRows(TypedGraph(), TypeRefs({4}, {5})) == N.TypedNodes()
    ensures N.Precedes(order, 0, 1)
  {
    hide N.Greedy, N.Precedes;
    TypedGraphLinked();
    TypedGraphRows();
    N.TypeAfterInstance(order);
  }

  lemma TypedGraphRows()
    ensures Resolved(TypedGraph()) && AllRows(TypedGraph(), TypeRefs({4}, {5})) == N.TypedNodes()
  {
    TypedGraphResolved();
    hide Resolved;
    var g, types := TypedGraph(), TypeRefs({4}, {5});
    forall i | 0 <= i < 6 ensures AllRows(g, types)[i] == N.TypedNodes()[i] {
      TypedGraphRow(i);
    }
  }

  lemma TypedGraphRow(i: nat)
    requires i < 6 && Resolved(TypedGraph())
    ensures RowOf(TypedGraph(), TypeRefs({4}, {5}), i) == N.TypedNodes()[i]
  {
    hide Resolved;
    var nodes := TypedGraph().nodes;
    assert IndexOf(nodes, 1) == 1 && IndexOf(nodes, 2) == 2 && IndexOf(nodes, 3) == 3;
  }

  // ---------------------------------------------------------------- a parent with an inverse reference only

  function BackwardRows(): seq<seq<N.Ref>> {
    [[N.Ref(1, N.OrdinaryInverse), N.Ref(1, N.OrdinaryForward)],
     [N.Ref(0, N.OrdinaryInverse), N.Ref(0, N.OrdinaryForward)], [], []]
  }

  lemma BackwardGraphRow(i: nat)
    requires i < 4 && Resolved(BackwardGraph())
    ensures RowOf(BackwardGraph(), TypeRefs({}, {}), i) == BackwardRows()[i]
  {
    hide Resolved;
    var nodes := BackwardGraph().nodes;
    assert IndexOf(nodes, 0) == 0 && IndexOf(nodes, 1) == 1;
  }

  lemma BackwardGraphRows()
    ensures Resolved(BackwardGraph()) && AllRows(BackwardGraph(), TypeRefs({}, {})) == BackwardRows()
  {
    BackwardGraphResolved();
    hide Resolved;
    var g, types := BackwardGraph(), TypeRefs({}, {});
    forall i | 0 <= i < 4 ensures AllRows(g, types)[i] == BackwardRows()[i] { BackwardGraphRow(i); }
  }

  /** While both of the nodes are left, each waits for the other alone. */
  lemma BackwardRowsWeigh(placed: seq<nat>, i: nat)
    requires i < 2 && 0 !in placed && 1 !in placed
    ensures N.RowWeight(BackwardRows(), placed, i) == 1
  {
    hide N.WaitingFor, N.RowWeight;
    var rows := BackwardRows();
    N.WeightMeans(rows, placed, i);
    var w := N.WaitingFor(rows, placed, i, 4);
    forall x ensures x in w <==> x == N.Place(1 - i, 1) { BackwardRowsWait(placed, i, x); }
    assert w == {N.Place(1 - i, 1)};
    BackwardRowsOwn(i);
  }

  lemma BackwardRowsWait(placed: seq<nat>, i: nat, x: N.Place)
    requires i < 2 && 0 !in placed && 1 !in placed
    ensures N.Waits(BackwardRows(), placed, i, 4, x) <==> x == N.Place(1 - i, 1)
  {
  }

  lemma BackwardRowsOwn(i: nat)
    requires i < 2
    ensures N.TypeTotal(BackwardRows()[i], |BackwardRows()[i]|) == 0
  {
    var own := BackwardRows()[i];
    assert N.TypeTotal(own, 2) == N.TypeTotal(own, 1);
  }

  lemma BackwardOrder(order: seq<nat>)
    requires N.Greedy(BackwardRows(), order) && |order| == 4
    ensures N.Precedes(order, 0, 1)
  {
    hide N.RowWeight, N.Greedy, N.Precedes;
    N.OneComesFirst(BackwardRows(), order, 0, 1);
    N.OneComesFirst(BackwardRows(), order, 1, 0);
    if N.Precedes(order, 1, 0) {
      var a :| 0 <= a < |order| && order[a] == 1 && N.NotHeavier(BackwardRows(), order[..a], 1, 0);
      BackwardRowsWeigh(order[..a], 0);
      BackwardRowsWeigh(order[..a], 1);
      assert false;
    }
  }

  /** Also in the sorted order, a parent that knows its child by an inverse reference only gets an edge of its own. */
  lemma SortedInverseParentReference(order: seq<nat>, namespace0: set<NodeId>)
    requires N.Permutation(order, 4) && N.Greedy(BackwardRows(), order)
    ensures Linked(BackwardGraph()) && AllRows(BackwardGraph(), TypeRefs({}, {})) == BackwardRows()
    ensures var h := Reordered(BackwardGraph(), order);
      var s := Run({}, PrintAll(h, Initial(h, {}), PrintOrder(h, namespace0)).code);
      s.Some? && Edge(0, 2, 1) in s.value.edges && !InputEdge(BackwardGraph(), Edge(0, 2, 1))
  {
    hide Linked, N.Greedy, N.Precedes, FirstParent, AllReferences, RefsUsed, PrintAll, Initial, Exec, Resolved,
         InputEdge, ParentEdges, ToPrintEdge, NoDuplicates;
    var g, p := BackwardGraph(), Ref(0, 0, 1, 2, false);
    var h := Reordered(g, order);
    BackwardGraphLinked();
    BackwardGraphRows();
    BackwardGraphParent();
    BackwardOrder(order);
    var a, b := PlacesOf(g, order, 0, 1);
    ReorderedIsLinked(g, order);
    SameFirstParent(g, h, 1);
    var list := PrintOrder(h, namespace0);
    BackwardTypesOnly(order, namespace0);
    assert forall n :: n in h.nodes ==> n in list;
    ProgramRebuilds(h, {}, list);
    ParentEdgesAre(h, {}, list, Edge(0, 2, 1));
    BackwardEdgeAt(order, namespace0, a, b);
  }

  /** The reference types in use are not among the two nodes. */
  lemma BackwardTypesOnly(order: seq<nat>, namespace0: set<NodeId>)
    requires N.Permutation(order, 4)
    ensures var h := Reordered(BackwardGraph(), order); var refs := AllReferences(h, h.nodes);
      1 !in RefsUsed(refs, |refs|, namespace0)
  {
    hide AllReferences, RefsUsed, Linked, Resolved, NoDuplicates, Permuted;
    var g := BackwardGraph();
    var h := Reordered(g, order);
    BackwardGraphLinked();
    ReorderedIsLinked(g, order);
    LinkedIsResolved(h);
    AllReferencesMembers(h, h.nodes);
    var refs := AllReferences(h, h.nodes);
    forall r | r in refs ensures r.referenceType == 2 || r.referenceType == 3 {
      assert Holds(g, r);
      BackwardGraphHolds(r);
    }
    UsedAreTypes(refs, |refs|, namespace0);
  }

  lemma {:induction false} UsedAreTypes(refs: seq<Ref>, k: nat, namespace0: set<NodeId>)
    requires k <= |refs| && forall r :: r in refs ==> r.referenceType == 2 || r.referenceType == 3
    ensures forall n :: n in RefsUsed(refs, k, namespace0) ==> n == 2 || n == 3
  {
    if k > 0 {
      UsedAreTypes(refs, k - 1, namespace0);
      assert refs[k - 1] in refs;
    }
  }

  lemma BackwardEdgeAt(order: seq<nat>, namespace0: set<NodeId>, a: nat, b: nat)
    requires N.Permutation(order, 4) && a < b < 4 && order[a] == 0 && order[b] == 1
    requires var h := Reordered(BackwardGraph(), order); var refs := AllReferences(h, h.nodes);
      FirstParent(h, 1) == Some(Ref(0, 0, 1, 2, false)) && 1 !in RefsUsed(refs, |refs|, namespace0)
    ensures var h := Reordered(BackwardGraph(), order); var list := PrintOrder(h, namespace0);
      exists k :: 0 <= k < |list| && ParentEdgeAt(h, {}, list, k, Edge(0, 2, 1))
  {
    hide AllReferences, RefsUsed, FirstParent, ParentEdgeAt;
    var h := Reordered(BackwardGraph(), order);
    var refs := AllReferences(h, h.nodes);
    var used := RefsUsed(refs, |refs|, namespace0);
    assert h.nodes[a] == 0 && h.nodes[b] == 1;
    forall c | 0 <= c < b ensures h.nodes[c] != 1 { assert order[c] != order[b]; }
    EdgeAtPlace(h, {}, used, a, b, Ref(0, 0, 1, 2, false));
    assert PrintOrder(h, namespace0) == used + h.nodes;
    assert ParentEdgeAt(h, {}, PrintOrder(h, namespace0), |used| + b, Edge(0, 2, 1));
  }
}
