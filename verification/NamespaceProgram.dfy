/** Executing the generated program rebuilds the graph it was generated from. */
module NamespaceProgram {
  import opened InfluxTypes
  import opened NodeGraph
  import opened NamespacePrinter

  // ---------------------------------------------------------------- which references a step takes off the list

  lemma {:induction false} PrintableMembers(own: seq<Ref>, k: nat, unprinted: seq<NodeId>, refs: seq<Ref>)
    requires k <= |own|
    ensures forall x :: x in Printable(own, k, unprinted, refs) <==>
              x in own[..k] && x.target !in unprinted && x in refs
  {
    if k > 0 {
      PrintableMembers(own, k - 1, unprinted, refs);
      assert own[..k] == own[..k - 1] + [own[k - 1]];
    }
  }

  lemma {:induction false} WaitingMembers(refs: seq<Ref>, k: nat, n: NodeId, unprinted: seq<NodeId>)
    requires k <= |refs|
    ensures forall x :: x in Waiting(refs, k, n, unprinted) <==>
              x in refs[..k] && x.target == n && x.parent !in unprinted
  {
    if k > 0 {
      WaitingMembers(refs, k - 1, n, unprinted);
      assert refs[..k] == refs[..k - 1] + [refs[k - 1]];
    }
  }

  lemma {:induction false} DropInverseMembers(refs: seq<Ref>, own: seq<Ref>, k: nat, p: Ref)
    requires k <= |own| && NoDuplicates(refs)
    ensures NoDuplicates(DropInverse(refs, own, k, p))
    ensures forall x :: x in DropInverse(refs, own, k, p) <==> x in refs && !(x in own[..k] && BackToParent(x, p))
  {
    hide NoDuplicates, BackToParent;
    if k > 0 {
      DropInverseMembers(refs, own, k - 1, p);
      RemoveFirstMembers(DropInverse(refs, own, k - 1, p), own[k - 1]);
      assert own[..k] == own[..k - 1] + [own[k - 1]];
    }
  }

  /** Creating a node below its parent settles the reference from the parent and those back to it. */
  predicate Settled(g: Graph, n: NodeId, unprinted: seq<NodeId>, x: Ref) {
    HasParent(g, n, unprinted) && n in g.refs &&
    (x == FirstParent(g, n).value || (x in g.refs[n] && BackToParent(x, FirstParent(g, n).value)))
  }

  lemma CreatedMembers(g: Graph, st: Printer, n: NodeId)
    requires NoDuplicates(st.refs) && n in g.refs
    ensures NoDuplicates(Created(g, st, n).refs)
    ensures forall x :: x in Created(g, st, n).refs <==> x in st.refs && !Settled(g, n, st.nodes, x)
  {
    hide NoDuplicates, FirstParent, BackToParent;
    if HasParent(g, n, st.nodes) {
      var p, own := FirstParent(g, n).value, g.refs[n];
      RemoveFirstMembers(st.refs, p);
      var refs := if p in st.refs then RemoveFirst(st.refs, p) else st.refs;
      DropInverseMembers(refs, own, |own|, p);
      assert own[..|own|] == own;
    }
  }

  lemma AddPrintedMembers(st: Printer, list: seq<Ref>)
    requires NoDuplicates(st.refs)
    ensures NoDuplicates(AddPrinted(st, list).refs)
    ensures forall x :: x in AddPrinted(st, list).refs <==> x in st.refs && x !in list
  {
    RemoveEachMembers(st.refs, list, |list|);
    assert list[..|list|] == list;
  }

  predicate OwnPrinted(g: Graph, n: NodeId, unprinted: seq<NodeId>, x: Ref) {
    n in g.refs && x in g.refs[n] && x.target !in unprinted
  }

  predicate WaitedFor(n: NodeId, unprinted: seq<NodeId>, x: Ref) { x.target == n && x.parent !in unprinted }

  /** The three groups of references that printing a node takes off the list; the last two become calls. */
  lemma PrintNodeMembers(g: Graph, st: Printer, n: NodeId)
    requires NoDuplicates(st.refs) && NoDuplicates(st.nodes) && n in st.nodes && n in g.refs
    ensures var u := PrintNode(g, st, n);
      && NoDuplicates(u.refs) && NoDuplicates(u.nodes)
      && (forall m :: m in u.nodes <==> m in st.nodes && m != n)
      && (forall x :: x in u.refs <==>
            x in st.refs && !Settled(g, n, st.nodes, x) && !OwnPrinted(g, n, st.nodes, x) && !WaitedFor(n, st.nodes, x))
  {
    hide NoDuplicates, Settled, Created, Printable, Waiting, RemoveEach, Ops;
    var a := Created(g, st, n);
    CreatedMembers(g, st, n);
    CreatedKeepsNodes(g, st, n);
    var own := Printable(g.refs[n], |g.refs[n]|, a.nodes, a.refs);
    PrintableMembers(g.refs[n], |g.refs[n]|, a.nodes, a.refs);
    assert g.refs[n][..|g.refs[n]|] == g.refs[n];
    AddPrintedMembers(a, own);
    var b := AddPrinted(a, own);
    var waiting := Waiting(b.refs, |b.refs|, n, b.nodes);
    WaitingMembers(b.refs, |b.refs|, n, b.nodes);
    assert b.refs[..|b.refs|] == b.refs;
    AddPrintedMembers(b, waiting);
    RemoveFirstMembers(st.nodes, n);
  }

  /** The reference is dropped because the creation of n below its parent p already adds its edge. */
  predicate Redundant(g: Graph, n: NodeId, p: Ref, x: Ref) {
    x == p || (x.parent == n && x.target == p.parent && x.referenceType == p.referenceType && !x.isForward)
  }

  /**
   * The calls printed for a node: its creation, below its parent if that is printed, and then one call for each
   * reference on the list between the node and one that is printed, except for the redundant ones.
   */
  lemma PrintNodeCalls(g: Graph, st: Printer, n: NodeId) returns (list: seq<Ref>)
    requires Resolved(g) && NoDuplicates(st.refs) && n in st.nodes && n in g.refs
    requires forall x :: x in st.refs ==> Holds(g, x)
    ensures NoDuplicates(list)
    ensures PrintNode(g, st, n).code == st.code +
            [if HasParent(g, n, st.nodes)
             then CreateWithParent(n, FirstParent(g, n).value.parent, FirstParent(g, n).value.referenceType)
             else Create(n)] + Ops(list, |list|)
    ensures forall x :: x in list <==>
              x in st.refs &&
              ((x.parent == n && x.target !in st.nodes) || (x.target == n && x.parent !in st.nodes)) &&
              !(HasParent(g, n, st.nodes) && Redundant(g, n, FirstParent(g, n).value, x))
  {
    hide NoDuplicates, Printable, Waiting, RemoveEach, Ops, Created, FirstParent;
    var a := Created(g, st, n);
    CreatedMembers(g, st, n);
    CreatedCode(g, st, n);
    var own := Printable(g.refs[n], |g.refs[n]|, a.nodes, a.refs);
    PrintableMembers(g.refs[n], |g.refs[n]|, a.nodes, a.refs);
    assert g.refs[n][..|g.refs[n]|] == g.refs[n];
    AddPrintedMembers(a, own);
    var b := AddPrinted(a, own);
    var waiting := Waiting(b.refs, |b.refs|, n, b.nodes);
    WaitingMembers(b.refs, |b.refs|, n, b.nodes);
    assert b.refs[..|b.refs|] == b.refs;
    list := own + waiting;
    PrintableOnce(g.refs[n], |g.refs[n]|, a.nodes, a.refs);
    WaitingOnce(b.refs, |b.refs|, n, b.nodes);
    NoDuplicatesConcat(own, waiting);
    OpsConcat(own, waiting, |waiting|);
    forall x | x in st.refs ensures Settled(g, n, st.nodes, x) <==>
        HasParent(g, n, st.nodes) && Redundant(g, n, FirstParent(g, n).value, x) {
      assert Holds(g, x);
    }
    assert a.code + Ops(own, |own|) + Ops(waiting, |waiting|) == a.code + Ops(list, |list|);
  }

  lemma CreatedCode(g: Graph, st: Printer, n: NodeId)
    requires n in g.refs
    ensures Created(g, st, n).nodes == st.nodes
    ensures Created(g, st, n).code == st.code +
            [if HasParent(g, n, st.nodes)
             then CreateWithParent(n, FirstParent(g, n).value.parent, FirstParent(g, n).value.referenceType)
             else Create(n)]
  {
    hide FirstParent;
  }

  lemma {:induction false} PrintableOnce(own: seq<Ref>, k: nat, unprinted: seq<NodeId>, refs: seq<Ref>)
    requires k <= |own| && NoDuplicates(own)
    ensures NoDuplicates(Printable(own, k, unprinted, refs))
  {
    if k > 0 {
      PrintableOnce(own, k - 1, unprinted, refs);
      PrintableMembers(own, k - 1, unprinted, refs);
      assert own[k - 1] !in own[..k - 1];
    }
  }

  lemma {:induction false} WaitingOnce(refs: seq<Ref>, k: nat, n: NodeId, unprinted: seq<NodeId>)
    requires k <= |refs| && NoDuplicates(refs)
    ensures NoDuplicates(Waiting(refs, k, n, unprinted))
  {
    if k > 0 {
      WaitingOnce(refs, k - 1, n, unprinted);
      WaitingMembers(refs, k - 1, n, unprinted);
      assert refs[k - 1] !in refs[..k - 1];
    }
  }

  lemma {:induction false} OpsConcat(a: seq<Ref>, b: seq<Ref>, k: nat)
    requires k <= |b|
    ensures Ops(a + b, |a| + k) == Ops(a, |a|) + Ops(b, k)
  {
    if k == 0 {
      OpsOfPrefix(a, b, |a|);
      assert Ops(a, |a|) + [] == Ops(a, |a|);
    } else {
      OpsConcat(a, b, k - 1);
      assert (a + b)[|a| + k - 1] == b[k - 1];
    }
  }

  lemma {:induction false} OpsOfPrefix(a: seq<Ref>, b: seq<Ref>, k: nat)
    requires k <= |a|
    ensures Ops(a + b, k) == Ops(a, k)
  {
    if k > 0 { OpsOfPrefix(a, b, k - 1); }
  }

  lemma CreatedKeepsNodes(g: Graph, st: Printer, n: NodeId)
    requires n in g.refs
    ensures Created(g, st, n).nodes == st.nodes
  {
  }

  // ---------------------------------------------------------------- what the calls of a step do

  function EdgesOf(refs: seq<Ref>, k: nat): set<Edge>
    requires k <= |refs|
  {
    if k == 0 then {} else EdgesOf(refs, k - 1) + {Norm(refs[k - 1])}
  }

  lemma {:induction false} EdgesOfMembers(refs: seq<Ref>, k: nat)
    requires k <= |refs|
    ensures forall e :: e in EdgesOf(refs, k) <==> exists r :: r in refs[..k] && Norm(r) == e
  {
    if k > 0 {
      EdgesOfMembers(refs, k - 1);
      assert refs[..k] == refs[..k - 1] + [refs[k - 1]];
    }
  }

  lemma ExecOne(s: Server, ops: seq<Op>, op: Op)
    ensures Exec(s, ops + [op]) == if Exec(s, ops).None? then None else Step(Exec(s, ops).value, op)
    ensures ParentEdges(ops + [op]) ==
            ParentEdges(ops) + if op.CreateWithParent? then {Edge(op.parent, op.referenceType, op.node)} else {}
  {
    assert (ops + [op])[..|ops|] == ops;
  }

  lemma {:induction false} ExecOps(s: Server, ops: seq<Op>, list: seq<Ref>, k: nat)
    requires k <= |list| && Exec(s, ops).Some?
    requires forall r :: r in list[..k] ==> r.parent in Exec(s, ops).value.nodes && r.target in Exec(s, ops).value.nodes
    ensures var u := Exec(s, ops).value;
      Exec(s, ops + Ops(list, k)) == Some(Server(u.nodes, u.edges + EdgesOf(list, k)))
    ensures ParentEdges(ops + Ops(list, k)) == ParentEdges(ops)
  {
    hide Exec, ParentEdges;
    var u := Exec(s, ops).value;
    if k == 0 {
      assert ops + Ops(list, 0) == ops;
      assert u.edges + EdgesOf(list, 0) == u.edges;
    } else {
      assert list[..k] == list[..k - 1] + [list[k - 1]];
      ExecOps(s, ops, list, k - 1);
      var front := ops + Ops(list, k - 1);
      ExecOne(s, front, OpOf(list[k - 1]));
      assert u.edges + EdgesOf(list, k) == (u.edges + EdgesOf(list, k - 1)) + {Norm(list[k - 1])};
      assert front + [OpOf(list[k - 1])] == ops + Ops(list, k);
    }
  }

  /** The edge that comes with creating the node, if any does. */
  function ParentEdge(g: Graph, n: NodeId, unprinted: seq<NodeId>): set<Edge> {
    if HasParent(g, n, unprinted) then
      {Edge(FirstParent(g, n).value.parent, FirstParent(g, n).value.referenceType, n)}
    else {}
  }

  lemma ExecCreated(g: Graph, st: Printer, n: NodeId, s0: Server)
    requires n in g.refs && Exec(s0, st.code).Some? && n !in Exec(s0, st.code).value.nodes
    requires HasParent(g, n, st.nodes) ==> FirstParent(g, n).value.parent in Exec(s0, st.code).value.nodes
    ensures var s := Exec(s0, st.code).value;
      && Exec(s0, Created(g, st, n).code) == Some(Server(s.nodes + {n}, s.edges + ParentEdge(g, n, st.nodes)))
      && ParentEdges(Created(g, st, n).code) == ParentEdges(st.code) + ParentEdge(g, n, st.nodes)
  {
    hide Exec, ParentEdges, FirstParent;
    var s := Exec(s0, st.code).value;
    if HasParent(g, n, st.nodes) {
      var p := FirstParent(g, n).value;
      ExecOne(s0, st.code, CreateWithParent(n, p.parent, p.referenceType));
    } else {
      ExecOne(s0, st.code, Create(n));
      assert s.edges + {} == s.edges && ParentEdges(st.code) + {} == ParentEdges(st.code);
    }
  }

  // ---------------------------------------------------------------- what every step keeps

  ghost predicate Self(r: Ref) { r.parent == r.target }

  /** A reference between two nodes that is to be printed: its holder is not ignored. */
  ghost predicate ToPrint(g: Graph, ignored: set<NodeId>, r: Ref) { Holds(g, r) && r.parent !in ignored && !Self(r) }

  ghost predicate Covers(refs: seq<Ref>, e: Edge) { exists r :: r in refs && !Self(r) && Norm(r) == e }

  ghost predicate ToPrintEdge(g: Graph, ignored: set<NodeId>, e: Edge) {
    exists r :: ToPrint(g, ignored, r) && Norm(r) == e
  }

  /** The lists: what is left of the references, given the nodes that are left. */
  ghost predicate Lists(g: Graph, ignored: set<NodeId>, nodes: seq<NodeId>, refs: seq<Ref>) {
    && NoDuplicates(nodes) && NoDuplicates(refs)
    && (forall n :: n in nodes ==> n in g.refs && n !in ignored)
    && (forall r :: r in refs ==> Holds(g, r) && r.parent !in ignored)
    && (forall r :: Holds(g, r) && r.parent in nodes ==> r in refs)
    && (forall r :: r in refs && !Self(r) ==> r.parent in nodes || r.target in nodes)
  }

  /** The server: the nodes are those not left, and each edge is there, or still to come. */
  ghost predicate Built(
      g: Graph, ignored: set<NodeId>, nodes: seq<NodeId>, refs: seq<Ref>, s: Server, parents: set<Edge>) {
    && (forall n :: n in s.nodes <==> n in g.refs && n !in nodes)
    && (forall e :: ToPrintEdge(g, ignored, e) ==> e in s.edges || Covers(refs, e))
    && (forall e :: e in s.edges ==> ToPrintEdge(g, ignored, e) || e in parents)
    && parents <= s.edges
  }

  lemma {:induction false} FirstParentInHolds(g: Graph, n: NodeId, refs: seq<Ref>)
    requires Resolved(g) && FirstParentIn(g, n, refs).Some?
    ensures var p := FirstParentIn(g, n, refs).value; Holds(g, p) && p.target == n
  {
    if !refs[0].isForward && refs[0].target in g.refs && FindRef(g.refs[refs[0].target], n).Some? {
      FindRefIsListed(g.refs[refs[0].target], n);
    } else {
      FirstParentInHolds(g, n, refs[1..]);
    }
  }

  lemma {:induction false} FindRefIsListed(refs: seq<Ref>, target: NodeId)
    requires FindRef(refs, target).Some?
    ensures FindRef(refs, target).value in refs && FindRef(refs, target).value.target == target
  {
    if refs[0].target != target { FindRefIsListed(refs[1..], target); }
  }

  lemma ParentHolds(g: Graph, n: NodeId)
    requires Resolved(g) && FirstParent(g, n).Some?
    ensures n in g.refs && Holds(g, FirstParent(g, n).value) && FirstParent(g, n).value.target == n
  {
    FirstParentInHolds(g, n, g.refs[n]);
  }

  /** Reference m of the list is the first one to the target. */
  ghost predicate FirstTo(refs: seq<Ref>, m: nat, target: NodeId) {
    m < |refs| && refs[m].target == target && forall j :: 0 <= j < m ==> refs[j].target != target
  }

  lemma {:induction false} FindRefIsFirst(refs: seq<Ref>, m: nat, target: NodeId)
    requires FirstTo(refs, m, target)
    ensures FindRef(refs, target) == Some(refs[m])
  {
    if m > 0 {
      assert refs[0].target != target;
      FindRefIsFirst(refs[1..], m - 1, target);
    }
  }

  lemma {:induction false} HasFirst(refs: seq<Ref>, target: NodeId) returns (m: nat)
    requires exists r :: r in refs && r.target == target
    ensures FirstTo(refs, m, target)
  {
    if refs[0].target == target {
      m := 0;
    } else {
      assert refs == [refs[0]] + refs[1..];
      m := HasFirst(refs[1..], target);
      m := m + 1;
      assert forall j :: 0 < j < m ==> refs[j] == refs[1..][j - 1];
    }
  }

  lemma {:induction false} ForwardIsSkipped(g: Graph, n: NodeId, refs: seq<Ref>, k: nat)
    requires k <= |refs| && forall i :: 0 <= i < k ==> refs[i].isForward
    ensures FirstParentIn(g, n, refs) == FirstParentIn(g, n, refs[k..])
  {
    if k == 0 {
      assert refs[0..] == refs;
    } else {
      assert refs[0].isForward && refs[1..][k - 1..] == refs[k..];
      ForwardIsSkipped(g, n, refs[1..], k - 1);
    }
  }

  /**
   * The first inverse reference of a node, if it has one, decides on the parent: it is the node that this reference
   * names, by the first of the references which that one holds to the node.
   */
  lemma FirstInverseDecides(g: Graph, n: NodeId, k: nat)
    requires Linked(g) && n in g.refs && k <= |g.refs[n]|
    requires forall i :: 0 <= i < k ==> g.refs[n][i].isForward
    requires k < |g.refs[n]| ==> !g.refs[n][k].isForward
    ensures FirstParent(g, n).Some? <==> k < |g.refs[n]|
    ensures k < |g.refs[n]| ==>
      var parent := g.refs[n][k].target;
      && parent in g.refs
      && exists m: nat :: FirstTo(g.refs[parent], m, n) && FirstParent(g, n) == Some(g.refs[parent][m])
  {
    hide NoDuplicates;
    var own := g.refs[n];
    ForwardIsSkipped(g, n, own, k);
    if k < |own| {
      var r := own[k];
      assert r in own && Holds(g, r) && Mirrored(g, r);
      var mirror :| Holds(g, mirror) && mirror.parent == r.target && mirror.target == r.parent;
      var held := g.refs[r.target];
      assert mirror in held && mirror.target == n;
      var m := HasFirst(held, n);
      FindRefIsFirst(held, m, n);
    }
  }

  lemma PrintNodeKeepsLists(g: Graph, ignored: set<NodeId>, st: Printer, n: NodeId)
    requires Resolved(g) && Lists(g, ignored, st.nodes, st.refs) && n in st.nodes
    ensures Lists(g, ignored, PrintNode(g, st, n).nodes, PrintNode(g, st, n).refs)
  {
    hide NoDuplicates, PrintNode, FirstParent;
    PrintNodeMembers(g, st, n);
    var u := PrintNode(g, st, n);
    forall r | Holds(g, r) && r.parent in u.nodes ensures r in u.refs {
      if HasParent(g, n, st.nodes) { ParentHolds(g, n); }
    }
    forall r | r in u.refs && !Self(r) ensures r.parent in u.nodes || r.target in u.nodes {
      assert r in st.refs && Holds(g, r);
    }
  }

  // ---------------------------------------------------------------- the edges of a step

  /** The edges that printing a node adds. */
  ghost predicate Added(g: Graph, st: Printer, n: NodeId, e: Edge) {
    e in ParentEdge(g, n, st.nodes) ||
    exists r :: r in st.refs && !Settled(g, n, st.nodes, r) && Norm(r) == e &&
      (OwnPrinted(g, n, st.nodes, r) || WaitedFor(n, st.nodes, r))
  }

  /** The calls printed for a node succeed, and add these edges. */
  lemma ExecPrintNode(g: Graph, ignored: set<NodeId>, st: Printer, n: NodeId, s0: Server)
    requires Resolved(g) && Lists(g, ignored, st.nodes, st.refs) && n in st.nodes
    requires Exec(s0, st.code).Some?
    requires forall m :: m in Exec(s0, st.code).value.nodes <==> m in g.refs && m !in st.nodes
    ensures var s := Exec(s0, st.code).value; var u := PrintNode(g, st, n);
      && Exec(s0, u.code).Some? && Exec(s0, u.code).value.nodes == s.nodes + {n}
      && (forall e :: e in Exec(s0, u.code).value.edges <==> e in s.edges || Added(g, st, n, e))
      && ParentEdges(u.code) == ParentEdges(st.code) + ParentEdge(g, n, st.nodes)
  {
    hide Exec, ParentEdges, FirstParent, Settled, Created, Printable, Waiting, RemoveEach, Ops, EdgesOf, NoDuplicates;
    var s := Exec(s0, st.code).value;
    if HasParent(g, n, st.nodes) { ParentHolds(g, n); }
    ExecCreated(g, st, n, s0);
    CreatedMembers(g, st, n);
    CreatedKeepsNodes(g, st, n);
    var a := Created(g, st, n);
    var own := Printable(g.refs[n], |g.refs[n]|, a.nodes, a.refs);
    PrintableMembers(g.refs[n], |g.refs[n]|, a.nodes, a.refs);
    assert g.refs[n][..|g.refs[n]|] == g.refs[n] && own[..|own|] == own;
    forall r | r in own ensures r.parent in s.nodes + {n} && r.target in s.nodes + {n} {
      assert r in st.refs && Holds(g, r);
    }
    ExecOps(s0, a.code, own, |own|);
    EdgesOfMembers(own, |own|);
    AddPrintedMembers(a, own);
    var b := AddPrinted(a, own);
    var waiting := Waiting(b.refs, |b.refs|, n, b.nodes);
    WaitingMembers(b.refs, |b.refs|, n, b.nodes);
    assert b.refs[..|b.refs|] == b.refs && waiting[..|waiting|] == waiting;
    forall r | r in waiting ensures r.parent in s.nodes + {n} && r.target in s.nodes + {n} {
      assert r in st.refs && Holds(g, r);
    }
    ExecOps(s0, b.code, waiting, |waiting|);
    EdgesOfMembers(waiting, |waiting|);
  }

  /** Dropping a reference never loses its edge: creation adds it, or its mirror is printed. */
  lemma SettledIsAdded(g: Graph, ignored: set<NodeId>, st: Printer, n: NodeId, r: Ref)
    requires Linked(g) && Lists(g, ignored, st.nodes, st.refs) && n in st.nodes
    requires r in st.refs && !Self(r) && Settled(g, n, st.nodes, r)
    ensures Added(g, st, n, Norm(r))
  {
    hide NoDuplicates, FirstParent, BackToParent;
    ParentHolds(g, n);
    var p := FirstParent(g, n).value;
    if r == p && !p.isForward {
      assert Mirrored(g, p);
      var m :| Holds(g, m) && m.parent == p.target && m.target == p.parent &&
               m.referenceType == p.referenceType && m.isForward;
      assert m in st.refs && OwnPrinted(g, n, st.nodes, m) && Norm(m) == Norm(p);
      assert !BackToParent(m, p) by { ForwardIsNotBack(m, p); }
    } else if r != p {
      assert Norm(r) == Edge(p.parent, p.referenceType, n) by { BackNorm(g, n, r, p); }
    }
  }

  lemma ForwardIsNotBack(m: Ref, p: Ref)
    requires m.isForward
    ensures !BackToParent(m, p)
  {
  }

  lemma BackNorm(g: Graph, n: NodeId, r: Ref, p: Ref)
    requires Resolved(g) && n in g.refs && r in g.refs[n] && BackToParent(r, p)
    ensures Norm(r) == Edge(p.parent, p.referenceType, n)
  {
  }

  lemma AddedIsToPrint(g: Graph, ignored: set<NodeId>, st: Printer, n: NodeId, e: Edge)
    requires Resolved(g) && Lists(g, ignored, st.nodes, st.refs) && n in st.nodes && Added(g, st, n, e)
    ensures ToPrintEdge(g, ignored, e) || e in ParentEdge(g, n, st.nodes)
  {
    hide NoDuplicates, FirstParent, Settled;
    if e !in ParentEdge(g, n, st.nodes) {
      var r :| r in st.refs && Norm(r) == e && (OwnPrinted(g, n, st.nodes, r) || WaitedFor(n, st.nodes, r));
      assert Holds(g, r) && r.parent !in ignored;
      if OwnPrinted(g, n, st.nodes, r) {
        assert r.parent == n && r.target != n;
      } else {
        assert WaitedFor(n, st.nodes, r);
      }
    }
  }

  lemma StillCovered(g: Graph, ignored: set<NodeId>, st: Printer, n: NodeId, e: Edge)
    requires Linked(g) && Lists(g, ignored, st.nodes, st.refs) && n in st.nodes && Covers(st.refs, e)
    ensures Added(g, st, n, e) || Covers(PrintNode(g, st, n).refs, e)
  {
    hide NoDuplicates, PrintNode, FirstParent, Settled, OwnPrinted, WaitedFor;
    PrintNodeMembers(g, st, n);
    var r :| r in st.refs && !Self(r) && Norm(r) == e;
    if Settled(g, n, st.nodes, r) {
      SettledIsAdded(g, ignored, st, n, r);
    } else if !OwnPrinted(g, n, st.nodes, r) && !WaitedFor(n, st.nodes, r) {
      assert r in PrintNode(g, st, n).refs;
    }
  }

  /** The whole state: lists and server fit together. */
  ghost predicate Inv(g: Graph, ignored: set<NodeId>, s0: Server, st: Printer) {
    && Lists(g, ignored, st.nodes, st.refs)
    && Exec(s0, st.code).Some?
    && Built(g, ignored, st.nodes, st.refs, Exec(s0, st.code).value, ParentEdges(st.code))
  }

  lemma PrintNodeKeepsInv(g: Graph, ignored: set<NodeId>, s0: Server, st: Printer, n: NodeId)
    requires Linked(g) && Inv(g, ignored, s0, st)
    ensures Inv(g, ignored, s0, PrintNode(g, st, n))
  {
    hide NoDuplicates, PrintNode, FirstParent, Exec, ParentEdges, ParentEdge, Added, Covers, ToPrintEdge, Linked;
    if n !in st.nodes { PrintNothing(g, st, n); return; }
    assert Resolved(g) by { LinkedIsResolved(g); }
    PrintNodeKeepsLists(g, ignored, st, n);
    ExecPrintNode(g, ignored, st, n, s0);
    PrintedNodes(g, ignored, st, n);
    var u, s := PrintNode(g, st, n), Exec(s0, st.code).value;
    var t := Exec(s0, u.code).value;
    forall e | ToPrintEdge(g, ignored, e) ensures e in t.edges || Covers(u.refs, e) {
      if Covers(st.refs, e) { StillCovered(g, ignored, st, n, e); }
    }
    forall e | e in t.edges ensures ToPrintEdge(g, ignored, e) || e in ParentEdges(u.code) {
      if Added(g, st, n, e) { AddedIsToPrint(g, ignored, st, n, e); }
    }
    forall e | e in ParentEdges(u.code) ensures e in t.edges {
      if e in ParentEdge(g, n, st.nodes) { ParentEdgeIsAdded(g, st, n, e); }
    }
  }

  lemma LinkedIsResolved(g: Graph)
    requires Linked(g)
    ensures Resolved(g)
  {
  }

  lemma PrintNothing(g: Graph, st: Printer, n: NodeId)
    requires n !in st.nodes
    ensures PrintNode(g, st, n) == st
  {
  }

  lemma ParentEdgeIsAdded(g: Graph, st: Printer, n: NodeId, e: Edge)
    requires e in ParentEdge(g, n, st.nodes)
    ensures Added(g, st, n, e)
  {
  }

  lemma PrintedNodes(g: Graph, ignored: set<NodeId>, st: Printer, n: NodeId)
    requires Lists(g, ignored, st.nodes, st.refs) && n in st.nodes
    ensures forall m :: m in PrintNode(g, st, n).nodes <==> m in st.nodes && m != n
  {
    hide NoDuplicates;
    PrintNodeMembers(g, st, n);
  }

  // ---------------------------------------------------------------- the whole program

  /** The nodes that are not ignored. */
  function Unprinted(nodes: seq<NodeId>, ignored: set<NodeId>): seq<NodeId> {
    if nodes == [] then []
    else Unprinted(nodes[..|nodes| - 1], ignored) +
         if nodes[|nodes| - 1] in ignored then [] else [nodes[|nodes| - 1]]
  }

  function AllReferences(g: Graph, nodes: seq<NodeId>): seq<Ref> {
    if nodes == [] then []
    else AllReferences(g, nodes[..|nodes| - 1]) +
         if nodes[|nodes| - 1] in g.refs then g.refs[nodes[|nodes| - 1]] else []
  }

  function Initial(g: Graph, ignored: set<NodeId>): Printer {
    var nodes := Unprinted(g.nodes, ignored);
    Printer(nodes, AllReferences(g, nodes), [])
  }

  lemma {:induction false} UnprintedMembers(nodes: seq<NodeId>, ignored: set<NodeId>)
    ensures forall n :: n in Unprinted(nodes, ignored) <==> n in nodes && n !in ignored
    ensures NoDuplicates(nodes) ==> NoDuplicates(Unprinted(nodes, ignored))
  {
    if nodes != [] {
      var front, last := nodes[..|nodes| - 1], nodes[|nodes| - 1];
      UnprintedMembers(front, ignored);
      assert nodes == front + [last];
      if NoDuplicates(nodes) {
        assert last !in front;
      }
    }
  }

  lemma {:induction false} AllReferencesMembers(g: Graph, nodes: seq<NodeId>)
    requires Resolved(g)
    ensures forall r :: r in AllReferences(g, nodes) <==> Holds(g, r) && r.parent in nodes
    ensures NoDuplicates(nodes) ==> NoDuplicates(AllReferences(g, nodes))
  {
    if nodes != [] {
      var front, last := nodes[..|nodes| - 1], nodes[|nodes| - 1];
      AllReferencesMembers(g, front);
      assert nodes == front + [last];
      var a, b := AllReferences(g, front), if last in g.refs then g.refs[last] else [];
      if NoDuplicates(nodes) {
        assert last !in front;
        assert forall r :: r in b ==> r.parent == last && r !in a;
        NoDuplicatesConcat(a, b);
      }
    }
  }

  lemma NoDuplicatesConcat(a: seq<Ref>, b: seq<Ref>)
    requires NoDuplicates(a) && NoDuplicates(b) && forall r :: r in b ==> r !in a
    ensures NoDuplicates(a + b)
  {
    forall i, j | 0 <= i < j < |a + b| ensures (a + b)[i] != (a + b)[j] {
      if j >= |a| { assert b[j - |a|] in b; }
    }
  }

  lemma InitialInv(g: Graph, ignored: set<NodeId>)
    requires Linked(g) && forall n :: n in ignored ==> n in g.refs
    ensures Inv(g, ignored, Server(ignored, {}), Initial(g, ignored))
  {
    hide NoDuplicates, Unprinted, AllReferences;
    UnprintedMembers(g.nodes, ignored);
    AllReferencesMembers(g, Unprinted(g.nodes, ignored));
    var st := Initial(g, ignored);
    forall e | ToPrintEdge(g, ignored, e) ensures Covers(st.refs, e) {
      var r :| ToPrint(g, ignored, r) && Norm(r) == e;
      assert r in st.refs;
    }
  }

  lemma {:induction false} PrintAllKeepsInv(g: Graph, ignored: set<NodeId>, order: seq<NodeId>)
    requires Linked(g) && forall n :: n in ignored ==> n in g.refs
    ensures Inv(g, ignored, Server(ignored, {}), PrintAll(g, Initial(g, ignored), order))
    ensures forall n :: n in PrintAll(g, Initial(g, ignored), order).nodes <==>
              n in g.nodes && n !in ignored && n !in order
  {
    hide Inv, PrintNode, Linked;
    if order == [] {
      InitialInv(g, ignored);
      UnprintedMembers(g.nodes, ignored);
    } else {
      var front, last := order[..|order| - 1], order[|order| - 1];
      PrintAllKeepsInv(g, ignored, front);
      var st := PrintAll(g, Initial(g, ignored), front);
      PrintNodeKeepsInv(g, ignored, Server(ignored, {}), st, last);
      assert order == front + [last];
      if last in st.nodes { InvPrints(g, ignored, st, last); } else { PrintNothing(g, st, last); }
    }
  }

  lemma InvPrints(g: Graph, ignored: set<NodeId>, st: Printer, n: NodeId)
    requires Inv(g, ignored, Server(ignored, {}), st) && n in st.nodes
    ensures forall m :: m in PrintNode(g, st, n).nodes <==> m in st.nodes && m != n
  {
    hide NoDuplicates, PrintNode, Exec, ParentEdges;
    PrintedNodes(g, ignored, st, n);
  }

  lemma NoMembers<T>(s: seq<T>)
    ensures (forall x :: x !in s) ==> s == []
  {
    if s != [] { assert s[0] in s; }
  }

  /**
   * Executing the program never fails: every node is created once, and no edge is added before its two ends
   * exist.  In the end all nodes are there, no reference is left but those of a node to itself, and the edges are
   * those of the references to print and those that came with the creation of nodes.
   */
  lemma ProgramRebuilds(g: Graph, ignored: set<NodeId>, order: seq<NodeId>)
    requires Linked(g) && (forall n :: n in ignored ==> n in g.refs) && (forall n :: n in g.nodes ==> n in order)
    ensures var st := PrintAll(g, Initial(g, ignored), order); var s := Exec(Server(ignored, {}), st.code);
      && s.Some?
      && (forall n :: n in s.value.nodes <==> n in g.nodes)
      && (forall e :: e in s.value.edges <==> ToPrintEdge(g, ignored, e) || e in ParentEdges(st.code))
      && st.nodes == [] && (forall r :: r in st.refs ==> Self(r))
  {
    hide PrintAll, Initial, Exec, ParentEdges, ToPrintEdge, NoDuplicates;
    PrintAllKeepsInv(g, ignored, order);
    var st := PrintAll(g, Initial(g, ignored), order);
    NoMembers(st.nodes);
    assert forall e :: !Covers(st.refs, e);
  }

  // ---------------------------------------------------------------- compared with the input

  ghost predicate InputEdge(g: Graph, e: Edge) { exists r :: Holds(g, r) && !Self(r) && Norm(r) == e }

  /** No edge is made up, and only edges that start at ignored nodes are missing. */
  ghost predicate Faithful(g: Graph, ignored: set<NodeId>, edges: set<Edge>) {
    forall e :: (e in edges ==> InputEdge(g, e)) && (InputEdge(g, e) && e.source !in ignored ==> e in edges)
  }

  lemma InputIsToPrint(g: Graph, ignored: set<NodeId>, e: Edge)
    requires Linked(g)
    ensures ToPrintEdge(g, ignored, e) ==> InputEdge(g, e)
    ensures InputEdge(g, e) && e.source !in ignored ==> ToPrintEdge(g, ignored, e)
  {
    if ToPrintEdge(g, ignored, e) {
      var r :| ToPrint(g, ignored, r) && Norm(r) == e;
    }
    if InputEdge(g, e) && e.source !in ignored {
      var r :| Holds(g, r) && !Self(r) && Norm(r) == e;
      if r.parent in ignored {
        assert Mirrored(g, r);
        var m :| Holds(g, m) && m.parent == r.target && m.target == r.parent &&
                 m.referenceType == r.referenceType && m.isForward;
        assert ToPrint(g, ignored, m) && Norm(m) == e;
      } else {
        assert ToPrint(g, ignored, r);
      }
    }
  }

  /** The node at a place of the order is created below its parent, and this is the edge from there. */
  ghost predicate ParentEdgeAt(g: Graph, ignored: set<NodeId>, order: seq<NodeId>, k: nat, e: Edge)
    requires k < |order|
  {
    var n := order[k];
    && n in g.nodes && n !in ignored && n !in order[..k]
    && FirstParent(g, n).Some?
    && (FirstParent(g, n).value.parent in ignored || FirstParent(g, n).value.parent in order[..k])
    && e == Edge(FirstParent(g, n).value.parent, FirstParent(g, n).value.referenceType, n)
  }

  lemma {:induction false} ParentEdgesAre(g: Graph, ignored: set<NodeId>, order: seq<NodeId>, e: Edge)
    requires Linked(g) && forall n :: n in ignored ==> n in g.refs
    ensures e in ParentEdges(PrintAll(g, Initial(g, ignored), order).code) <==>
            exists k :: 0 <= k < |order| && ParentEdgeAt(g, ignored, order, k, e)
  {
    hide PrintNode, FirstParent, Initial, ParentEdges;
    if order == [] {
      NoParentEdges(g, ignored);
    } else {
      var front, last := order[..|order| - 1], order[|order| - 1];
      var st := PrintAll(g, Initial(g, ignored), front);
      ParentEdgesAre(g, ignored, front, e);
      ParentEdgeStep(g, ignored, front, last);
      forall k | 0 <= k < |front|
        ensures ParentEdgeAt(g, ignored, order, k, e) <==> ParentEdgeAt(g, ignored, front, k, e) {
        assert front[..k] == order[..k] && front[k] == order[k];
      }
      LastParentEdge(g, ignored, order, st, e);
    }
  }

  lemma NoParentEdges(g: Graph, ignored: set<NodeId>)
    ensures ParentEdges(Initial(g, ignored).code) == {}
  {
  }

  lemma ParentEdgeStep(g: Graph, ignored: set<NodeId>, front: seq<NodeId>, n: NodeId)
    requires Linked(g) && forall m :: m in ignored ==> m in g.refs
    ensures var st := PrintAll(g, Initial(g, ignored), front);
      && ParentEdges(PrintNode(g, st, n).code) ==
           ParentEdges(st.code) + (if n in st.nodes then ParentEdge(g, n, st.nodes) else {})
      && (forall m :: m in st.nodes <==> m in g.nodes && m !in ignored && m !in front)
  {
    hide PrintNode, FirstParent, Initial, ParentEdges, Exec, NoDuplicates, PrintAll, ParentEdge;
    PrintAllKeepsInv(g, ignored, front);
    var st := PrintAll(g, Initial(g, ignored), front);
    if n in st.nodes {
      ExecPrintNode(g, ignored, st, n, Server(ignored, {}));
    } else {
      PrintNothing(g, st, n);
    }
  }

  lemma LastParentEdge(g: Graph, ignored: set<NodeId>, order: seq<NodeId>, st: Printer, e: Edge)
    requires Resolved(g) && order != []
    requires forall m :: m in st.nodes <==> m in g.nodes && m !in ignored && m !in order[..|order| - 1]
    ensures var n := order[|order| - 1];
      (n in st.nodes && e in ParentEdge(g, n, st.nodes)) <==> ParentEdgeAt(g, ignored, order, |order| - 1, e)
  {
    hide FirstParent;
    var n := order[|order| - 1];
    if FirstParent(g, n).Some? { ParentHolds(g, n); }
  }

  /** Every node that is created below a parent is so along an edge of the input. */
  ghost predicate ParentsAreInput(g: Graph, ignored: set<NodeId>, order: seq<NodeId>) {
    forall k, e :: 0 <= k < |order| && ParentEdgeAt(g, ignored, order, k, e) ==> InputEdge(g, e)
  }

  /** The program rebuilds the input exactly if the edges from the parents are edges of the input. */
  lemma FaithfulIff(g: Graph, ignored: set<NodeId>, order: seq<NodeId>)
    requires Linked(g) && (forall n :: n in ignored ==> n in g.refs) && (forall n :: n in g.nodes ==> n in order)
    ensures var s := Exec(Server(ignored, {}), PrintAll(g, Initial(g, ignored), order).code);
      s.Some? && (Faithful(g, ignored, s.value.edges) <==> ParentsAreInput(g, ignored, order))
  {
    hide PrintAll, Initial, Exec, ParentEdges, ToPrintEdge, ParentEdgeAt, InputEdge, Linked;
    ProgramRebuilds(g, ignored, order);
    var st := PrintAll(g, Initial(g, ignored), order);
    var edges := Exec(Server(ignored, {}), st.code).value.edges;
    forall e ensures e in edges <==>
        ToPrintEdge(g, ignored, e) || exists k :: 0 <= k < |order| && ParentEdgeAt(g, ignored, order, k, e) {
      ParentEdgesAre(g, ignored, order, e);
    }
    forall e ensures ToPrintEdge(g, ignored, e) ==> InputEdge(g, e)
             ensures InputEdge(g, e) && e.source !in ignored ==> ToPrintEdge(g, ignored, e) {
      InputIsToPrint(g, ignored, e);
    }
  }

  /** In particular it does where the references of parents to their children are forward ones. */
  lemma ForwardParentsAreFaithful(g: Graph, ignored: set<NodeId>, order: seq<NodeId>)
    requires Linked(g) && (forall n :: n in ignored ==> n in g.refs) && (forall n :: n in g.nodes ==> n in order)
    requires forall n :: n in g.nodes && FirstParent(g, n).Some? ==> FirstParent(g, n).value.isForward
    ensures var s := Exec(Server(ignored, {}), PrintAll(g, Initial(g, ignored), order).code);
      s.Some? && Faithful(g, ignored, s.value.edges)
  {
    hide PrintAll, Initial, Exec, FirstParent, Faithful;
    FaithfulIff(g, ignored, order);
    forall k, e | 0 <= k < |order| && ParentEdgeAt(g, ignored, order, k, e) ensures InputEdge(g, e) {
      var p := FirstParent(g, order[k]).value;
      ParentHolds(g, order[k]);
      assert Holds(g, p) && !Self(p) && Norm(p) == e;
    }
  }

  /** Two nodes, each with an inverse reference to the other, of two types; linked. */
  function BackwardGraph(): Graph {
    Graph([0, 1, 2, 3],
          map[0 := [Ref(0, 0, 1, 2, false), Ref(2, 0, 1, 3, true)],
              1 := [Ref(1, 1, 0, 3, false), Ref(3, 1, 0, 2, true)], 2 := [], 3 := []], 4)
  }

  lemma BackwardGraphHolds(r: Ref)
    ensures Holds(BackwardGraph(), r) <==>
            r == Ref(0, 0, 1, 2, false) || r == Ref(2, 0, 1, 3, true) ||
            r == Ref(1, 1, 0, 3, false) || r == Ref(3, 1, 0, 2, true)
  {
    var g := BackwardGraph();
    assert r.parent in g.refs ==> r.parent == 0 || r.parent == 1 || g.refs[r.parent] == [];
  }

  lemma BackwardGraphResolved()
    ensures Resolved(BackwardGraph())
  {
    var g := BackwardGraph();
    assert NoDuplicates(g.nodes);
    forall n | n in g.refs ensures NoDuplicates(g.refs[n]) {
      assert n == 0 || n == 1 || g.refs[n] == [];
    }
    forall n, r | n in g.refs && r in g.refs[n]
      ensures r.parent == n && r.target in g.refs && r.referenceType in g.refs && r.number < g.next {
      assert n == 0 || n == 1;
    }
  }

  lemma BackwardGraphLinked()
    ensures Linked(BackwardGraph()) && !InputEdge(BackwardGraph(), Edge(0, 2, 1))
  {
    hide BackwardGraph, Resolved, Holds;
    var g := BackwardGraph();
    BackwardGraphResolved();
    forall r ensures Holds(g, r) <==>
            r == Ref(0, 0, 1, 2, false) || r == Ref(2, 0, 1, 3, true) ||
            r == Ref(1, 1, 0, 3, false) || r == Ref(3, 1, 0, 2, true) {
      BackwardGraphHolds(r);
    }
    assert Holds(g, Ref(2, 0, 1, 3, true)) && Holds(g, Ref(3, 1, 0, 2, true));
  }

  lemma BackwardGraphParent()
    ensures FirstParent(BackwardGraph(), 1) == Some(Ref(0, 0, 1, 2, false))
  {
    var g := BackwardGraph();
    assert g.refs[1][0] == Ref(1, 1, 0, 3, false);
  }

  /** Where a parent knows its child by an inverse reference only, creating the child adds an edge of its own. */
  lemma InverseParentReference()
    ensures var g := BackwardGraph();
      var s := Exec(Server({}, {}), PrintAll(g, Initial(g, {}), g.nodes).code);
      Linked(g) && s.Some? && Edge(0, 2, 1) in s.value.edges && !InputEdge(g, Edge(0, 2, 1))
  {
    hide Linked, InputEdge, PrintAll, Initial, Exec, FirstParent;
    var g := BackwardGraph();
    BackwardGraphLinked();
    BackwardGraphParent();
    ProgramIsExact(g, 0, 2, 1);
  }

  lemma ProgramIsExact(g: Graph, p: NodeId, t: NodeId, n: NodeId)
    requires Linked(g) && |g.nodes| > 1 && g.nodes[0] == p && g.nodes[1] == n
    requires FirstParent(g, n).Some?
    requires FirstParent(g, n).value.parent == p && FirstParent(g, n).value.referenceType == t
    ensures var s := Exec(Server({}, {}), PrintAll(g, Initial(g, {}), g.nodes).code);
      s.Some? && Edge(p, t, n) in s.value.edges
  {
    hide PrintAll, Initial, Exec, ParentEdges, FirstParent, ToPrintEdge;
    ProgramRebuilds(g, {}, g.nodes);
    assert g.nodes[..1] == [p];
    assert ParentEdgeAt(g, {}, g.nodes, 1, Edge(p, t, n));
    ParentEdgesAre(g, {}, g.nodes, Edge(p, t, n));
  }

  // ---------------------------------------------------------------- printing a whole namespace

  /** The reference types of namespace 0, each once, in the order in which they are first used. */
  function RefsUsed(refs: seq<Ref>, k: nat, namespace0: set<NodeId>): seq<NodeId>
    requires k <= |refs|
  {
    if k == 0 then []
    else
      var used, t := RefsUsed(refs, k - 1, namespace0), refs[k - 1].referenceType;
      if t in namespace0 && t !in used then used + [t] else used
  }

  /** The reference type t of namespace 0 is in use. */
  ghost predicate Used(g: Graph, namespace0: set<NodeId>, t: NodeId) {
    t in namespace0 && exists r :: Holds(g, r) && r.referenceType == t
  }

  lemma {:induction false} RefsUsedMembers(refs: seq<Ref>, k: nat, namespace0: set<NodeId>, t: NodeId)
    requires k <= |refs|
    ensures t in RefsUsed(refs, k, namespace0) <==>
            t in namespace0 && exists i :: 0 <= i < k && refs[i].referenceType == t
  {
    if k > 0 { RefsUsedMembers(refs, k - 1, namespace0, t); }
  }

  lemma RefsUsedAreUsed(g: Graph, namespace0: set<NodeId>, t: NodeId)
    requires Resolved(g)
    ensures var refs := AllReferences(g, g.nodes);
      t in RefsUsed(refs, |refs|, namespace0) <==> Used(g, namespace0, t)
  {
    hide AllReferences, RefsUsed, NoDuplicates;
    var refs := AllReferences(g, g.nodes);
    AllReferencesMembers(g, g.nodes);
    RefsUsedMembers(refs, |refs|, namespace0, t);
    if Used(g, namespace0, t) {
      var r :| Holds(g, r) && r.referenceType == t;
      assert r in refs;
      var i :| 0 <= i < |refs| && refs[i] == r;
    }
    if i :| 0 <= i < |refs| && refs[i].referenceType == t { assert refs[i] in refs; }
  }

  /** Reference i is the first one of its type. */
  ghost predicate FirstUse(refs: seq<Ref>, i: nat, t: NodeId) {
    i < |refs| && refs[i].referenceType == t && forall j :: 0 <= j < i ==> refs[j].referenceType != t
  }

  lemma {:induction false} RefsUsedInOrder(refs: seq<Ref>, k: nat, namespace0: set<NodeId>)
    requires k <= |refs|
    ensures var used := RefsUsed(refs, k, namespace0);
      NoDuplicates(used) &&
      forall a, b, i: nat, j: nat ::
        0 <= a < b < |used| && FirstUse(refs, i, used[a]) && FirstUse(refs, j, used[b]) ==> i < j
  {
    if k > 0 {
      var used, t := RefsUsed(refs, k - 1, namespace0), refs[k - 1].referenceType;
      RefsUsedInOrder(refs, k - 1, namespace0);
      RefsUsedMembers(refs, k - 1, namespace0, t);
      if t in namespace0 && t !in used {
        forall a, i: nat | 0 <= a < |used| && FirstUse(refs, i, used[a]) ensures i < k - 1 {
          RefsUsedMembers(refs, k - 1, namespace0, used[a]);
        }
        forall j: nat | FirstUse(refs, j, t) ensures j == k - 1 {}
      }
    }
  }

  /** Reference types come first, then all nodes; what was printed already is skipped. */
  function PrintOrder(g: Graph, namespace0: set<NodeId>): seq<NodeId> {
    var refs := AllReferences(g, g.nodes);
    RefsUsed(refs, |refs|, namespace0) + g.nodes
  }

  /** Prints the nodes in the order in which the graph has them. */
  method PrintNamespace(g: Graph, printedExternally: set<NodeId>, namespace0: set<NodeId>)
      returns (code: seq<Op>)
    requires Linked(g) && forall n :: n in printedExternally ==> n in g.refs
    ensures code == PrintAll(g, Initial(g, printedExternally), PrintOrder(g, namespace0)).code
  {
    hide Linked, PrintAll, PrintNode, RefsUsed, Initial, AllReferences, Unprinted, PrintOrder, Self, Exec,
         ParentEdges, ToPrintEdge;
    NodesHaveReferences(g);
    var printer := new NodePrinter(g);
    printer.unPrintedNodes := UnprintedNodes(g, printedExternally);
    printer.unPrintedReferences := ReferencesOf(g, printer.unPrintedNodes);
    ghost var st := Initial(g, printedExternally);
    assert printer.View() == st by { InitialIs(g, printedExternally, printer.View()); }
    PrintedNothing(g, st);
    var refsUsed := CollectRefsUsed(g, namespace0);
    PrintList(printer, st, [], refsUsed, printedExternally);
    assert [] + refsUsed == refsUsed;
    PrintList(printer, st, refsUsed, g.nodes, printedExternally);
    var order := PrintOrder(g, namespace0);
    assert refsUsed + g.nodes == order by { OrderIs(g, namespace0, refsUsed); }
    ProgramRebuilds(g, printedExternally, order);
    var leftover := LeftoverReferences(printer.unPrintedNodes, printer.unPrintedReferences);
    NoMembers(leftover);
    printer.PrintReferences(leftover);
    code := printer.code;
  }

  /** The last pass takes references to nodes that are not printed: there are none. */
  method LeftoverReferences(nodes: seq<NodeId>, refs: seq<Ref>) returns (list: seq<Ref>)
    ensures forall r :: r in list <==> r in refs && r.target in nodes && r.parent !in nodes
  {
    list := [];
    for i := 0 to |refs|
      invariant forall r :: r in list <==> r in refs[..i] && r.target in nodes && r.parent !in nodes
    {
      if refs[i].target in nodes && refs[i].parent !in nodes { list := list + [refs[i]]; }
      assert refs[..i + 1] == refs[..i] + [refs[i]];
    }
    assert refs[..|refs|] == refs;
  }

  lemma InitialIs(g: Graph, ignored: set<NodeId>, st: Printer)
    requires st.nodes == Unprinted(g.nodes, ignored) && st.refs == AllReferences(g, st.nodes) && st.code == []
    ensures st == Initial(g, ignored)
  {
  }

  lemma PrintedNothing(g: Graph, st: Printer)
    ensures PrintAll(g, st, []) == st
  {
  }

  lemma OrderIs(g: Graph, namespace0: set<NodeId>, used: seq<NodeId>)
    requires var refs := AllReferences(g, g.nodes); used == RefsUsed(refs, |refs|, namespace0)
    ensures used + g.nodes == PrintOrder(g, namespace0)
  {
  }

  lemma NodesHaveReferences(g: Graph)
    requires Linked(g)
    ensures forall n :: n in g.nodes ==> n in g.refs
  {
  }

  method PrintList(
      printer: NodePrinter, ghost st: Printer, ghost before: seq<NodeId>, list: seq<NodeId>, ghost ignored: set<NodeId>)
    requires Linked(printer.g) && st == Initial(printer.g, ignored)
    requires forall n :: n in ignored ==> n in printer.g.refs
    requires printer.View() == PrintAll(printer.g, st, before) && forall n :: n in list ==> n in printer.g.refs
    modifies printer
    ensures printer.View() == PrintAll(printer.g, st, before + list)
  {
    hide Linked, PrintNode, Initial;
    assert before + list[..0] == before && list[..|list|] == list;
    for i := 0 to |list|
      invariant printer.View() == PrintAll(printer.g, st, before + list[..i])
    {
      AppendPrints(printer.g, ignored, st, before + list[..i], list[i]);
      assert before + list[..i + 1] == (before + list[..i]) + [list[i]];
      printer.PrintOpen62541CCode(list[i]);
    }
  }

  lemma AppendPrints(g: Graph, ignored: set<NodeId>, st: Printer, order: seq<NodeId>, n: NodeId)
    requires Linked(g) && st == Initial(g, ignored) && forall m :: m in ignored ==> m in g.refs
    ensures PrintAll(g, st, order + [n]) == PrintNode(g, PrintAll(g, st, order), n)
    ensures NoDuplicates(PrintAll(g, st, order).refs)
  {
    hide Linked, PrintNode, Initial, Exec, ParentEdges;
    PrintAllKeepsInv(g, ignored, order);
    assert (order + [n])[..|order|] == order;
  }

  method UnprintedNodes(g: Graph, printedExternally: set<NodeId>) returns (nodes: seq<NodeId>)
    ensures nodes == Unprinted(g.nodes, printedExternally)
  {
    nodes := [];
    for i := 0 to |g.nodes|
      invariant nodes == Unprinted(g.nodes[..i], printedExternally)
    {
      assert g.nodes[..i + 1][..i] == g.nodes[..i];
      if g.nodes[i] !in printedExternally { nodes := nodes + [g.nodes[i]]; }
    }
    assert g.nodes[..|g.nodes|] == g.nodes;
  }

  method ReferencesOf(g: Graph, nodes: seq<NodeId>) returns (refs: seq<Ref>)
    ensures refs == AllReferences(g, nodes)
  {
    refs := [];
    for i := 0 to |nodes|
      invariant refs == AllReferences(g, nodes[..i])
    {
      assert nodes[..i + 1][..i] == nodes[..i];
      if nodes[i] in g.refs {
        var own := g.refs[nodes[i]];
        for j := 0 to |own|
          invariant refs == AllReferences(g, nodes[..i]) + own[..j]
        {
          refs := refs + [own[j]];
        }
        assert own[..|own|] == own;
      }
    }
    assert nodes[..|nodes|] == nodes;
  }

  method CollectRefsUsed(g: Graph, namespace0: set<NodeId>) returns (refsUsed: seq<NodeId>)
    requires Linked(g)
    ensures var refs := AllReferences(g, g.nodes); refsUsed == RefsUsed(refs, |refs|, namespace0)
    ensures forall n :: n in refsUsed ==> n in g.refs
    ensures forall t :: t in refsUsed <==> Used(g, namespace0, t)
  {
    hide AllReferences, NoDuplicates;
    AllReferencesMembers(g, g.nodes);
    var refs := ReferencesOf(g, g.nodes);
    refsUsed := [];
    for i := 0 to |refs|
      invariant refsUsed == RefsUsed(refs, i, namespace0) && forall n :: n in refsUsed ==> n in g.refs
    {
      var t := refs[i].referenceType;
      assert refs[i] in refs && Holds(g, refs[i]);
      if t !in refsUsed && t in namespace0 { refsUsed := refsUsed + [t]; }
    }
    forall t ensures t in refsUsed <==> Used(g, namespace0, t) { RefsUsedAreUsed(g, namespace0, t); }
  }
}
