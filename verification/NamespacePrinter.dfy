/** The generated program: its calls, and what executing them builds. */
module NamespacePrinter {
  import opened InfluxTypes
  import opened NodeGraph

  // ---------------------------------------------------------------- the generated calls

  /** A call in the generated code; CreateWithParent also adds the edge from the parent. */
  datatype Op =
    | Create(node: NodeId)
    | CreateWithParent(node: NodeId, parent: NodeId, referenceType: NodeId)
    | AddRef(source: NodeId, referenceType: NodeId, target: NodeId, isForward: bool)

  datatype Server = Server(nodes: set<NodeId>, edges: set<Edge>)

  function OpOf(r: Ref): Op { AddRef(r.parent, r.referenceType, r.target, r.isForward) }

  /** None where the server refuses: a node that exists already, or an edge without one of its ends. */
  function Step(s: Server, op: Op): Option<Server> {
    match op
    case Create(n) => if n in s.nodes then None else Some(Server(s.nodes + {n}, s.edges))
    case CreateWithParent(n, p, t) =>
      if n in s.nodes || p !in s.nodes then None else Some(Server(s.nodes + {n}, s.edges + {Edge(p, t, n)}))
    case AddRef(a, t, b, forward) =>
      if a !in s.nodes || b !in s.nodes then None
      else Some(Server(s.nodes, s.edges + {if forward then Edge(a, t, b) else Edge(b, t, a)}))
  }

  function Exec(s: Server, ops: seq<Op>): Option<Server> {
    if ops == [] then Some(s)
    else
      var u := Exec(s, ops[..|ops| - 1]);
      if u.None? then None else Step(u.value, ops[|ops| - 1])
  }

  /** The edges that come with the creation of nodes. */
  function ParentEdges(ops: seq<Op>): set<Edge> {
    if ops == [] then {}
    else
      var op := ops[|ops| - 1];
      ParentEdges(ops[..|ops| - 1]) +
      if op.CreateWithParent? then {Edge(op.parent, op.referenceType, op.node)} else {}
  }

  // ---------------------------------------------------------------- lists

  function RemoveFirst<T(==)>(s: seq<T>, x: T): seq<T> {
    if s == [] then [] else if s[0] == x then s[1..] else [s[0]] + RemoveFirst(s[1..], x)
  }

  /** Without the first k elements of a list. */
  function RemoveEach(s: seq<Ref>, list: seq<Ref>, k: nat): seq<Ref>
    requires k <= |list|
  {
    if k == 0 then s else RemoveFirst(RemoveEach(s, list, k - 1), list[k - 1])
  }

  lemma {:induction false} RemoveFirstMembers<T>(s: seq<T>, x: T)
    requires NoDuplicates(s)
    ensures NoDuplicates(RemoveFirst(s, x))
    ensures forall y :: y in RemoveFirst(s, x) <==> y in s && y != x
  {
    if s != [] && s[0] != x {
      RemoveFirstMembers(s[1..], x);
      assert s == [s[0]] + s[1..];
      var r := RemoveFirst(s[1..], x);
      assert forall i :: 0 <= i < |r| ==> r[i] in r;
      assert forall i :: 0 <= i < |s[1..]| ==> s[1..][i] == s[i + 1];
      assert s[0] !in s[1..];
    } else if s != [] {
      assert s == [x] + s[1..];
      assert x !in s[1..];
    }
  }

  lemma {:induction false} RemoveFirstShortens<T>(s: seq<T>, x: T)
    requires x in s
    ensures |RemoveFirst(s, x)| == |s| - 1
  {
    if s[0] != x {
      assert s == [s[0]] + s[1..];
      RemoveFirstShortens(s[1..], x);
    }
  }

  lemma {:induction false} RemoveEachMembers(s: seq<Ref>, list: seq<Ref>, k: nat)
    requires NoDuplicates(s) && k <= |list|
    ensures NoDuplicates(RemoveEach(s, list, k))
    ensures forall y :: y in RemoveEach(s, list, k) <==> y in s && y !in list[..k]
  {
    hide NoDuplicates, RemoveFirst;
    if k > 0 {
      RemoveEachMembers(s, list, k - 1);
      RemoveFirstMembers(RemoveEach(s, list, k - 1), list[k - 1]);
      assert list[..k] == list[..k - 1] + [list[k - 1]];
    }
  }

  // ---------------------------------------------------------------- printing a node

  function FindRef(refs: seq<Ref>, target: NodeId): Option<Ref> {
    if refs == [] then None else if refs[0].target == target then Some(refs[0]) else FindRef(refs[1..], target)
  }

  /** The first reference of the first node that an inverse reference of n names, if there is one. */
  function FirstParentIn(g: Graph, n: NodeId, refs: seq<Ref>): Option<Ref> {
    if refs == [] then None
    else if !refs[0].isForward && refs[0].target in g.refs && FindRef(g.refs[refs[0].target], n).Some? then
      FindRef(g.refs[refs[0].target], n)
    else FirstParentIn(g, n, refs[1..])
  }

  /** The reference, held by the parent, that makes it the parent. */
  function FirstParent(g: Graph, n: NodeId): Option<Ref> {
    if n in g.refs then FirstParentIn(g, n, g.refs[n]) else None
  }

  /** What is not printed yet, and the code so far. */
  datatype Printer = Printer(nodes: seq<NodeId>, refs: seq<Ref>, code: seq<Op>)

  predicate BackToParent(r: Ref, p: Ref) {
    r.target == p.parent && r.referenceType == p.referenceType && !r.isForward
  }

  /** Without the inverse references of a node to its parent, among the first k ones. */
  function DropInverse(refs: seq<Ref>, own: seq<Ref>, k: nat, p: Ref): seq<Ref>
    requires k <= |own|
  {
    if k == 0 then refs
    else
      var rest := DropInverse(refs, own, k - 1, p);
      if BackToParent(own[k - 1], p) && own[k - 1] in rest then RemoveFirst(rest, own[k - 1]) else rest
  }

  function Printable(own: seq<Ref>, k: nat, unprinted: seq<NodeId>, refs: seq<Ref>): seq<Ref>
    requires k <= |own|
  {
    if k == 0 then []
    else
      Printable(own, k - 1, unprinted, refs) +
      if own[k - 1].target !in unprinted && own[k - 1] in refs then [own[k - 1]] else []
  }

  function Waiting(refs: seq<Ref>, k: nat, n: NodeId, unprinted: seq<NodeId>): seq<Ref>
    requires k <= |refs|
  {
    if k == 0 then []
    else
      Waiting(refs, k - 1, n, unprinted) +
      if refs[k - 1].target == n && refs[k - 1].parent !in unprinted then [refs[k - 1]] else []
  }

  function Ops(refs: seq<Ref>, k: nat): seq<Op>
    requires k <= |refs|
  {
    if k == 0 then [] else Ops(refs, k - 1) + [OpOf(refs[k - 1])]
  }

  /** The node is created below its parent if that exists, and bootstrapped otherwise. */
  predicate HasParent(g: Graph, n: NodeId, unprinted: seq<NodeId>) {
    FirstParent(g, n).Some? && FirstParent(g, n).value.parent !in unprinted
  }

  function Created(g: Graph, st: Printer, n: NodeId): Printer
    requires n in g.refs
  {
    if HasParent(g, n, st.nodes) then
      var p := FirstParent(g, n).value;
      var refs := if p in st.refs then RemoveFirst(st.refs, p) else st.refs;
      Printer(st.nodes, DropInverse(refs, g.refs[n], |g.refs[n]|, p),
              st.code + [CreateWithParent(n, p.parent, p.referenceType)])
    else st.(code := st.code + [Create(n)])
  }

  function AddPrinted(st: Printer, list: seq<Ref>): Printer {
    Printer(st.nodes, RemoveEach(st.refs, list, |list|), st.code + Ops(list, |list|))
  }

  function PrintNode(g: Graph, st: Printer, n: NodeId): Printer {
    if n !in st.nodes || n !in g.refs then st
    else
      var a := Created(g, st, n);
      var b := AddPrinted(a, Printable(g.refs[n], |g.refs[n]|, a.nodes, a.refs));
      var c := AddPrinted(b, Waiting(b.refs, |b.refs|, n, b.nodes));
      c.(nodes := RemoveFirst(c.nodes, n))
  }

  function PrintAll(g: Graph, st: Printer, order: seq<NodeId>): Printer {
    if order == [] then st else PrintNode(g, PrintAll(g, st, order[..|order| - 1]), order[|order| - 1])
  }

  class NodePrinter {
    const g: Graph
    var unPrintedNodes: seq<NodeId>
    var unPrintedReferences: seq<Ref>
    var code: seq<Op>

    ghost function View(): Printer reads this { Printer(unPrintedNodes, unPrintedReferences, code) }

    constructor (g: Graph)
      ensures this.g == g && View() == Printer([], [], [])
    {
      this.g := g;
      unPrintedNodes, unPrintedReferences, code := [], [], [];
    }

    method FindReference(refs: seq<Ref>, target: NodeId) returns (r: Option<Ref>)
      ensures r == FindRef(refs, target)
    {
      assert refs[0..] == refs;
      for i := 0 to |refs|
        invariant FindRef(refs[i..], target) == FindRef(refs, target)
      {
        assert refs[i..][1..] == refs[i + 1..];
        if refs[i].target == target { return Some(refs[i]); }
      }
      r := None;
    }

    method GetFirstParentNode(n: NodeId) returns (parentRef: Option<Ref>)
      requires Linked(g) && n in g.refs
      ensures parentRef == FirstParent(g, n)
    {
      var refs := g.refs[n];
      assert refs[0..] == refs;
      for i := 0 to |refs|
        invariant FirstParentIn(g, n, refs[i..]) == FirstParentIn(g, n, refs)
      {
        assert refs[i..][1..] == refs[i + 1..];
        if !refs[i].isForward {
          assert refs[i] in g.refs[n];
          parentRef := FindReference(g.refs[refs[i].target], n);
          if parentRef.Some? { return; }
        }
      }
      parentRef := None;
    }

    method PrintOpen62541CCode(n: NodeId)
      requires Linked(g) && n in g.refs && NoDuplicates(unPrintedReferences)
      modifies `unPrintedNodes, `unPrintedReferences, `code
      ensures View() == PrintNode(g, old(View()), n)
    {
      hide Linked, FirstParent, Printable, Waiting, DropInverse, RemoveEach, Ops;
      if n !in unPrintedNodes { return; }
      ghost var st := View();
      CreateNode(n);
      assert View() == Created(g, st, n);
      var own := PrintableReferences(n);
      PrintReferences(own);
      var waiting := WaitingReferences(n);
      PrintReferences(waiting);
      unPrintedNodes := RemoveFirst(unPrintedNodes, n);
    }

    method CreateNode(n: NodeId)
      requires Linked(g) && n in g.refs && NoDuplicates(unPrintedReferences)
      modifies `unPrintedReferences, `code
      ensures View() == Created(g, old(View()), n)
    {
      hide Linked, FirstParent;
      var parentRef := GetFirstParentNode(n);
      if parentRef.Some? && parentRef.value.parent !in unPrintedNodes {
        var p := parentRef.value;
        code := code + [CreateWithParent(n, p.parent, p.referenceType)];
        RemoveFirstMembers(unPrintedReferences, p);
        if p in unPrintedReferences { unPrintedReferences := RemoveFirst(unPrintedReferences, p); }
        ghost var refs := unPrintedReferences;
        var own := g.refs[n];
        ghost var calls := code;
        for i := 0 to |own|
          invariant unPrintedReferences == DropInverse(refs, own, i, p)
          invariant code == calls && NoDuplicates(unPrintedReferences)
        {
          if own[i].target == p.parent && own[i].referenceType == p.referenceType && !own[i].isForward {
            while own[i] in unPrintedReferences
              invariant unPrintedReferences == DropInverse(refs, own, i, p) ||
                        (own[i] !in unPrintedReferences && unPrintedReferences == DropInverse(refs, own, i + 1, p))
              invariant code == calls && NoDuplicates(unPrintedReferences)
              decreases |unPrintedReferences|
            {
              RemoveFirstMembers(unPrintedReferences, own[i]);
              RemoveFirstShortens(unPrintedReferences, own[i]);
              unPrintedReferences := RemoveFirst(unPrintedReferences, own[i]);
            }
          }
        }
      } else {
        code := code + [Create(n)];
      }
    }

    method PrintableReferences(n: NodeId) returns (list: seq<Ref>)
      requires n in g.refs
      ensures list == Printable(g.refs[n], |g.refs[n]|, unPrintedNodes, unPrintedReferences)
    {
      list := [];
      var own := g.refs[n];
      for i := 0 to |own|
        invariant list == Printable(own, i, unPrintedNodes, unPrintedReferences)
      {
        if own[i].target !in unPrintedNodes && own[i] in unPrintedReferences { list := list + [own[i]]; }
      }
    }

    method WaitingReferences(n: NodeId) returns (list: seq<Ref>)
      ensures list == Waiting(unPrintedReferences, |unPrintedReferences|, n, unPrintedNodes)
    {
      list := [];
      for i := 0 to |unPrintedReferences|
        invariant list == Waiting(unPrintedReferences, i, n, unPrintedNodes)
      {
        var r := unPrintedReferences[i];
        if r.target == n && r.parent !in unPrintedNodes { list := list + [r]; }
      }
    }

    /** Prints the references and takes them off the list of those not printed. */
    method PrintReferences(list: seq<Ref>)
      modifies `unPrintedReferences, `code
      ensures View() == AddPrinted(old(View()), list)
    {
      for i := 0 to |list|
        invariant code == old(code) + Ops(list, i)
        invariant unPrintedReferences == RemoveEach(old(unPrintedReferences), list, i)
      {
        code := code + [OpOf(list[i])];
        unPrintedReferences := RemoveFirst(unPrintedReferences, list[i]);
      }
    }
  }
}
