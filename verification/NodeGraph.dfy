/** The nodes of a namespace and the references between them, as read from node sets, and mirroring them. */
module NodeGraph {
  type NodeId = nat

  /** A reference belongs to its parent; two references with the same contents are told apart by their number. */
  datatype Ref = Ref(number: nat, parent: NodeId, target: NodeId, referenceType: NodeId, isForward: bool)

  /** An edge of the address space has no holder, only a direction. */
  datatype Edge = Edge(source: NodeId, referenceType: NodeId, target: NodeId)

  function Norm(r: Ref): Edge {
    if r.isForward then Edge(r.parent, r.referenceType, r.target) else Edge(r.target, r.referenceType, r.parent)
  }

  datatype Graph = Graph(nodes: seq<NodeId>, refs: map<NodeId, seq<Ref>>, next: nat)

  ghost predicate NoDuplicates<T>(s: seq<T>) { forall i, j :: 0 <= i < j < |s| ==> s[i] != s[j] }

  /** All pointers are resolved, and references have different numbers below the next one. */
  ghost predicate Resolved(g: Graph) {
    && NoDuplicates(g.nodes)
    && (forall n :: n in g.refs <==> n in g.nodes)
    && (forall n, r :: n in g.refs && r in g.refs[n] ==>
          r.parent == n && r.target in g.refs && r.referenceType in g.refs && r.number < g.next)
    && (forall n :: n in g.refs ==> NoDuplicates(g.refs[n]))
  }

  /** The reference r is a reference of the graph. */
  predicate Holds(g: Graph, r: Ref) { r.parent in g.refs && r in g.refs[r.parent] }

  ghost predicate HasEdge(g: Graph, e: Edge) { exists r :: Holds(g, r) && Norm(r) == e }

  /** The other end of an inverse reference knows the edge as a forward reference of its own. */
  ghost predicate Mirrored(g: Graph, r: Ref) {
    exists m :: Holds(g, m) && m.parent == r.target && m.target == r.parent &&
      m.referenceType == r.referenceType && m.isForward
  }

  ghost predicate Linked(g: Graph) {
    Resolved(g) && forall r :: Holds(g, r) && !r.isForward ==> Mirrored(g, r)
  }

  // ---------------------------------------------------------------- the inversion pass

  function AddReference(g: Graph, r: Ref): Graph
    requires r.parent in g.refs
  {
    Graph(g.nodes, g.refs[r.parent := g.refs[r.parent] + [r]], g.next + 1)
  }

  function InvertOne(g: Graph, r: Ref): Graph
    requires r.target in g.refs
  {
    if r.isForward then g else AddReference(g, Ref(g.next, r.target, r.parent, r.referenceType, true))
  }

  ghost predicate IsPrefix(a: seq<Ref>, b: seq<Ref>) { |a| <= |b| && b[..|a|] == a }

  /** The pass has added references to the graph it started with, but neither an edge nor an inverse reference. */
  ghost predicate Enriched(before: Graph, after: Graph) {
    && Resolved(after) && after.nodes == before.nodes
    && (forall n :: n in before.refs ==> n in after.refs && IsPrefix(before.refs[n], after.refs[n]))
    && (forall r :: Holds(after, r) && !Holds(before, r) ==> r.isForward)
    && (forall e :: HasEdge(after, e) <==> HasEdge(before, e))
  }

  lemma HeldIsKept(before: Graph, after: Graph, r: Ref)
    requires Enriched(before, after) && Holds(before, r)
    ensures Holds(after, r)
  {
    var n := r.parent;
    var i :| 0 <= i < |before.refs[n]| && before.refs[n][i] == r;
    assert IsPrefix(before.refs[n], after.refs[n]);
    assert after.refs[n][..|before.refs[n]|][i] == r;
  }

  lemma AddReferenceHolds(g: Graph, r: Ref, x: Ref)
    requires r.parent in g.refs
    ensures Holds(AddReference(g, r), x) <==> Holds(g, x) || x == r
  {
  }

  lemma AddMirrorResolved(g: Graph, r: Ref)
    requires Resolved(g) && Holds(g, r) && !r.isForward
    ensures Resolved(InvertOne(g, r))
  {
    var m := Ref(g.next, r.target, r.parent, r.referenceType, true);
    var h := AddReference(g, m);
    assert m !in g.refs[m.parent];
  }

  lemma InvertOneEnriches(before: Graph, g: Graph, r: Ref)
    requires Enriched(before, g) && Holds(before, r) && Holds(g, r)
    ensures Enriched(before, InvertOne(g, r))
    ensures !r.isForward ==> Mirrored(InvertOne(g, r), r)
    ensures forall x :: Mirrored(g, x) ==> Mirrored(InvertOne(g, r), x)
  {
    hide Resolved;
    if !r.isForward {
      var m := Ref(g.next, r.target, r.parent, r.referenceType, true);
      assert r.target in g.refs by { TargetIsNode(g, r); }
      var h := InvertOne(g, r);
      AddMirrorResolved(g, r);
      forall x ensures Holds(h, x) <==> Holds(g, x) || x == m { AddReferenceHolds(g, m, x); }
      assert Norm(m) == Norm(r);
      assert HasEdge(before, Norm(m));
      forall e ensures HasEdge(h, e) <==> HasEdge(before, e) {
        if HasEdge(before, e) {
          assert HasEdge(g, e);
          var x :| Holds(g, x) && Norm(x) == e;
          assert Holds(h, x);
        }
        if HasEdge(h, e) {
          var x :| Holds(h, x) && Norm(x) == e;
          if x != m { assert HasEdge(g, e); }
        }
      }
      assert Holds(h, m);
    }
  }

  lemma TargetIsNode(g: Graph, r: Ref)
    requires Resolved(g) && Holds(g, r)
    ensures r.target in g.refs
  {
  }

  class Namespace {
    var nodes: seq<NodeId>
    var references: map<NodeId, seq<Ref>>
    var next: nat

    ghost function View(): Graph reads this { Graph(nodes, references, next) }

    method AddForward(holder: NodeId, target: NodeId, referenceType: NodeId)
      requires holder in references
      modifies this
      ensures View() == AddReference(old(View()), Ref(old(next), holder, target, referenceType, true))
    {
      references := references[holder := references[holder] + [Ref(next, holder, target, referenceType, true)]];
      next := next + 1;
    }

    /**
     * Tells the target of every inverse reference about it.  References added to the node at hand are forward
     * ones, so that going through those it had at first does the same.
     */
    method InvertReferences()
      requires Resolved(View())
      modifies this
      ensures Linked(View()) && Enriched(old(View()), View())
    {
      hide Resolved, HasEdge, Mirrored, Enriched, Holds;
      ghost var before := View();
      EnrichedAtFirst(before);
      ghost var done: set<Ref> := {};
      assert nodes[..0] == [];
      for i := 0 to |nodes|
        invariant nodes == before.nodes && Enriched(before, View()) && MirroredAll(View(), done)
        invariant forall r :: Holds(before, r) && r.parent in nodes[..i] && !r.isForward ==> r in done
      {
        NodesAreKept(before, View());
        done := InvertReferencesOf(nodes[i], before, done);
        NodesAreKept(before, View());
        assert nodes[..i + 1] == nodes[..i] + [nodes[i]];
      }
      assert nodes[..|nodes|] == nodes;
      AllAreMirrored(before, View(), done);
    }

    method InvertReferencesOf(n: NodeId, ghost before: Graph, ghost done: set<Ref>) returns (ghost more: set<Ref>)
      requires Enriched(before, View()) && MirroredAll(View(), done) && n in references
      modifies this
      ensures Enriched(before, View()) && MirroredAll(View(), more)
      ensures done <= more && forall r :: Holds(before, r) && r.parent == n && !r.isForward ==> r in more
    {
      hide Resolved, HasEdge, Mirrored, Enriched, Holds, IsPrefix;
      var refs := references[n];
      ghost var start := View();
      more := done;
      for j := 0 to |refs|
        invariant Enriched(before, View()) && MirroredAll(View(), more) && done <= more
        invariant forall i :: 0 <= i < j && !refs[i].isForward ==> refs[i] in more
      {
        if !refs[j].isForward {
          InverseIsOld(before, start, refs[j], n);
          HeldIsKept(before, View(), refs[j]);
          InvertOneEnriches(before, View(), refs[j]);
          InverseIsOld(before, View(), refs[j], n);
          AddForward(refs[j].target, n, refs[j].referenceType);
          more := more + {refs[j]};
        }
      }
      forall r | Holds(before, r) && r.parent == n && !r.isForward ensures r in more {
        HeldIsKept(before, start, r);
        HeldIsListed(start, r);
      }
    }
  }

  ghost predicate MirroredAll(g: Graph, done: set<Ref>) { forall r :: r in done ==> Mirrored(g, r) }

  lemma EnrichedAtFirst(g: Graph)
    requires Resolved(g)
    ensures Enriched(g, g)
  {
  }

  lemma NodesAreKept(before: Graph, g: Graph)
    requires Enriched(before, g)
    ensures g.nodes == before.nodes && forall n :: n in g.refs <==> n in g.nodes
  {
  }

  lemma HeldIsListed(g: Graph, r: Ref)
    requires Holds(g, r)
    ensures r.parent in g.refs && r in g.refs[r.parent]
  {
  }

  lemma InverseIsOld(before: Graph, g: Graph, r: Ref, n: NodeId)
    requires Enriched(before, g) && !r.isForward && n in g.refs && (r in g.refs[n] || (Holds(g, r) && r.parent == n))
    ensures Holds(before, r) && r.parent == n && r.target in g.refs && Holds(g, r)
  {
  }

  lemma AllAreMirrored(before: Graph, g: Graph, done: set<Ref>)
    requires Enriched(before, g) && MirroredAll(g, done)
    requires forall r :: Holds(before, r) && r.parent in before.nodes && !r.isForward ==> r in done
    ensures Linked(g)
  {
    forall r | Holds(g, r) && !r.isForward ensures Mirrored(g, r) {
      InverseIsOld(before, g, r, r.parent);
    }
  }
}
