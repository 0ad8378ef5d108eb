/** Reference types come first: what that achieves. */
module Bootstrap {
  import opened InfluxTypes
  import opened NodeGraph
  import opened NamespacePrinter
  import opened NamespaceProgram

  predicate Creates(op: Op, n: NodeId) { (op.Create? || op.CreateWithParent?) && op.node == n }

  /** The call needs the reference type t. */
  predicate Names(op: Op, t: NodeId) { (op.CreateWithParent? || op.AddRef?) && op.referenceType == t }

  ghost predicate CreatedIn(code: seq<Op>, n: NodeId) { exists i :: 0 <= i < |code| && Creates(code[i], n) }

  lemma CreatedInOneMore(code: seq<Op>, op: Op, n: NodeId)
    ensures CreatedIn(code + [op], n) <==> CreatedIn(code, n) || Creates(op, n)
  {
    var more := code + [op];
    assert more[|code|] == op;
    if i :| 0 <= i < |code| && Creates(code[i], n) { assert more[i] == code[i]; }
  }

  /** The nodes on the server are those that were there and those that the calls created. */
  lemma {:induction false} ExecCreates(s0: Server, code: seq<Op>, n: NodeId)
    requires Exec(s0, code).Some?
    ensures n in Exec(s0, code).value.nodes <==> n in s0.nodes || CreatedIn(code, n)
    ensures CreatedIn(code, n) ==> n !in s0.nodes
  {
    if code != [] {
      var front, op := code[..|code| - 1], code[|code| - 1];
      ExecCreates(s0, front, n);
      assert code == front + [op];
      CreatedInOneMore(front, op, n);
    }
  }

  /** Edges on the server are between nodes on the server. */
  lemma {:induction false} ExecConnects(s0: Server, code: seq<Op>, e: Edge)
    requires s0.edges == {} && Exec(s0, code).Some? && e in Exec(s0, code).value.edges
    ensures e.source in Exec(s0, code).value.nodes && e.target in Exec(s0, code).value.nodes
  {
    if code != [] {
      var s := Exec(s0, code[..|code| - 1]).value;
      if e in s.edges { ExecConnects(s0, code[..|code| - 1], e); }
    }
  }

  // ---------------------------------------------------------------- what the calls name

  ghost predicate TypeHeld(g: Graph, t: NodeId) { exists r :: Holds(g, r) && r.referenceType == t }

  /** From call k on, all types are those of references. */
  ghost predicate NamesHeld(g: Graph, code: seq<Op>, k: nat) {
    forall i, t :: k <= i < |code| && Names(code[i], t) ==> TypeHeld(g, t)
  }

  ghost predicate Extends(code: seq<Op>, before: seq<Op>) { |before| <= |code| && code[..|before|] == before }

  lemma {:induction false} OpsName(g: Graph, refs: seq<Ref>, k: nat)
    requires k <= |refs| && forall r :: r in refs ==> Holds(g, r)
    ensures NamesHeld(g, Ops(refs, k), 0)
  {
    if k > 0 {
      OpsName(g, refs, k - 1);
      assert Holds(g, refs[k - 1]);
    }
  }

  lemma ConcatNames(g: Graph, code: seq<Op>, tail: seq<Op>, k: nat)
    requires k <= |code| && NamesHeld(g, code, k) && NamesHeld(g, tail, 0)
    ensures NamesHeld(g, code + tail, k)
  {
  }

  lemma CreationNames(g: Graph, st: Printer, n: NodeId)
    requires Resolved(g) && n in g.refs
    ensures var code := Created(g, st, n).code; Extends(code, st.code) && NamesHeld(g, code, |st.code|)
  {
    hide FirstParent;
    if HasParent(g, n, st.nodes) { ParentHolds(g, n); }
  }

  /** The calls printed for a node follow those before, and name types of references only. */
  lemma PrintNodeNames(g: Graph, ignored: set<NodeId>, st: Printer, n: NodeId)
    requires Resolved(g) && Lists(g, ignored, st.nodes, st.refs)
    ensures var code := PrintNode(g, st, n).code; Extends(code, st.code) && NamesHeld(g, code, |st.code|)
  {
    hide NoDuplicates, Printable, Waiting, RemoveEach, Ops, Created, NamesHeld;
    if n in st.nodes {
      CreationNames(g, st, n);
      CreatedMembers(g, st, n);
      var a := Created(g, st, n);
      var own := Printable(g.refs[n], |g.refs[n]|, a.nodes, a.refs);
      PrintableMembers(g.refs[n], |g.refs[n]|, a.nodes, a.refs);
      assert g.refs[n][..|g.refs[n]|] == g.refs[n];
      OpsName(g, own, |own|);
      ConcatNames(g, a.code, Ops(own, |own|), |st.code|);
      AddPrintedMembers(a, own);
      var b := AddPrinted(a, own);
      var waiting := Waiting(b.refs, |b.refs|, n, b.nodes);
      WaitingMembers(b.refs, |b.refs|, n, b.nodes);
      assert b.refs[..|b.refs|] == b.refs;
      OpsName(g, waiting, |waiting|);
      ConcatNames(g, b.code, Ops(waiting, |waiting|), |st.code|);
    } else {
      assert NamesHeld(g, st.code, |st.code|) by { NothingNamed(g, st.code); }
    }
  }

  lemma NothingNamed(g: Graph, code: seq<Op>)
    ensures NamesHeld(g, code, |code|)
  {
  }

  lemma {:induction false} PrintAllNames(g: Graph, ignored: set<NodeId>, before: seq<NodeId>, list: seq<NodeId>)
    requires Linked(g) && forall n :: n in ignored ==> n in g.refs
    ensures var st := Initial(g, ignored);
      var first, code := PrintAll(g, st, before).code, PrintAll(g, st, before + list).code;
      Extends(code, first) && NamesHeld(g, code, |first|)
  {
    hide Linked, PrintNode, Initial, Exec, ParentEdges, NamesHeld, NoDuplicates, Extends;
    var st := Initial(g, ignored);
    var first := PrintAll(g, st, before).code;
    if list == [] {
      assert before + list == before;
      NothingNamed(g, first);
      assert Extends(first, first) by { ExtendsItself(first); }
    } else {
      var front, n := list[..|list| - 1], list[|list| - 1];
      PrintAllNames(g, ignored, before, front);
      PrintAllKeepsInv(g, ignored, before + front);
      AppendPrints(g, ignored, st, before + front, n);
      assert (before + front) + [n] == before + list;
      LinkedIsResolved(g);
      var middle := PrintAll(g, st, before + front);
      PrintNodeNames(g, ignored, middle, n);
      NamesGoOn(g, first, middle.code, PrintAll(g, st, before + list).code);
    }
  }

  lemma ExtendsItself(code: seq<Op>)
    ensures Extends(code, code)
  {
  }

  lemma NamesGoOn(g: Graph, first: seq<Op>, middle: seq<Op>, code: seq<Op>)
    requires Extends(middle, first) && NamesHeld(g, middle, |first|)
    requires Extends(code, middle) && NamesHeld(g, code, |middle|)
    ensures Extends(code, first) && NamesHeld(g, code, |first|)
  {
    assert forall i :: 0 <= i < |middle| ==> code[i] == middle[i];
    assert forall i :: 0 <= i < |first| ==> code[i] == first[i];
  }

  // ---------------------------------------------------------------- the pass

  /**
   * With the first `pass` calls the reference types of namespace 0 in use are created, and no other node is; all
   * calls that follow find the types that they name.
   */
  ghost predicate PassEnds(g: Graph, ignored: set<NodeId>, namespace0: set<NodeId>, code: seq<Op>, pass: nat) {
    && pass <= |code|
    && (forall n :: CreatedIn(code[..pass], n) <==> Used(g, namespace0, n) && n !in ignored)
    && (forall i, t :: pass <= i < |code| && Names(code[i], t) ==>
          t !in namespace0 || t in ignored || CreatedIn(code[..pass], t))
  }

  ghost predicate TypesFirst(g: Graph, ignored: set<NodeId>, namespace0: set<NodeId>, code: seq<Op>) {
    exists pass: nat :: PassEnds(g, ignored, namespace0, code, pass)
  }

  /** The program for any order of the nodes starts with such a pass. */
  lemma TypesComeFirst(g: Graph, ignored: set<NodeId>, namespace0: set<NodeId>)
    requires Linked(g) && forall n :: n in ignored ==> n in g.refs
    ensures TypesFirst(g, ignored, namespace0, PrintAll(g, Initial(g, ignored), PrintOrder(g, namespace0)).code)
  {
    hide Linked, PrintAll, Initial, AllReferences, RefsUsed, NamesHeld, CreatedIn, Used, Extends, Exec, ParentEdges,
         NoDuplicates;
    LinkedIsResolved(g);
    var refs, st := AllReferences(g, g.nodes), Initial(g, ignored);
    var used := RefsUsed(refs, |refs|, namespace0);
    var first, code := PrintAll(g, st, used).code, PrintAll(g, st, used + g.nodes).code;
    PrintAllNames(g, ignored, used, g.nodes);
    forall n ensures CreatedIn(first, n) <==> Used(g, namespace0, n) && n !in ignored {
      RefsUsedAreUsed(g, namespace0, n);
      CreatedSoFar(g, ignored, used, n);
      if Used(g, namespace0, n) { UsedIsNode(g, namespace0, n); }
    }
    ExtendsPasses(g, ignored, namespace0, first, code);
  }

  lemma UsedIsNode(g: Graph, namespace0: set<NodeId>, t: NodeId)
    requires Resolved(g) && Used(g, namespace0, t)
    ensures t in g.nodes
  {
  }

  /** The nodes created so far are those in the list that are not ignored. */
  lemma CreatedSoFar(g: Graph, ignored: set<NodeId>, order: seq<NodeId>, n: NodeId)
    requires Linked(g) && forall m :: m in ignored ==> m in g.refs
    ensures CreatedIn(PrintAll(g, Initial(g, ignored), order).code, n) <==> n in order && n in g.nodes && n !in ignored
  {
    hide PrintAll, Initial, CreatedIn, Exec, ParentEdges, ToPrintEdge, NoDuplicates, Covers;
    PrintAllKeepsInv(g, ignored, order);
    ExecCreates(Server(ignored, {}), PrintAll(g, Initial(g, ignored), order).code, n);
  }

  lemma ExtendsPasses(g: Graph, ignored: set<NodeId>, namespace0: set<NodeId>, first: seq<Op>, code: seq<Op>)
    requires Extends(code, first) && NamesHeld(g, code, |first|)
    requires forall n :: CreatedIn(first, n) <==> Used(g, namespace0, n) && n !in ignored
    ensures TypesFirst(g, ignored, namespace0, code)
  {
    hide CreatedIn;
    forall i, t | |first| <= i < |code| && Names(code[i], t)
      ensures t !in namespace0 || t in ignored || CreatedIn(first, t)
    {
      assert TypeHeld(g, t);
    }
    assert PassEnds(g, ignored, namespace0, code, |first|);
  }

  /** So a reference type in use is created before every node that is not one. */
  lemma TypesBeforeOthers(
      g: Graph, ignored: set<NodeId>, namespace0: set<NodeId>, code: seq<Op>, t: NodeId, n: NodeId, j: nat)
    requires TypesFirst(g, ignored, namespace0, code)
    requires Used(g, namespace0, t) && t !in ignored && !Used(g, namespace0, n) && j < |code| && Creates(code[j], n)
    ensures exists i :: 0 <= i < j && Creates(code[i], t)
  {
    hide Used;
    var pass: nat :| PassEnds(g, ignored, namespace0, code, pass);
    assert CreatedIn(code[..pass], t);
    var i :| 0 <= i < pass && Creates(code[..pass][i], t);
    assert forall m :: 0 <= m < pass ==> code[..pass][m] == code[m];
    assert Creates(code[i], t);
  }

  // ---------------------------------------------------------------- during the pass

  /** The edges on the server after any part of the program: those whose two ends are there, and those from parents. */
  lemma EdgesSoFar(g: Graph, ignored: set<NodeId>, order: seq<NodeId>, e: Edge)
    requires Linked(g) && forall n :: n in ignored ==> n in g.refs
    ensures var code := PrintAll(g, Initial(g, ignored), order).code; var s := Exec(Server(ignored, {}), code);
      && s.Some?
      && (e in s.value.edges <==>
            (ToPrintEdge(g, ignored, e) && e.source in s.value.nodes && e.target in s.value.nodes)
            || e in ParentEdges(code))
  {
    hide PrintAll, Initial, Exec, ParentEdges, NoDuplicates, Linked;
    PrintAllKeepsInv(g, ignored, order);
    var st := PrintAll(g, Initial(g, ignored), order);
    var s := Exec(Server(ignored, {}), st.code).value;
    if e in s.edges { ExecConnects(Server(ignored, {}), st.code, e); }
    if e.source in s.nodes && e.target in s.nodes { NotCovered(g, ignored, st, e); }
  }

  lemma NotCovered(g: Graph, ignored: set<NodeId>, st: Printer, e: Edge)
    requires Lists(g, ignored, st.nodes, st.refs) && e.source !in st.nodes && e.target !in st.nodes
    ensures !Covers(st.refs, e)
  {
  }

  /** Three reference types, which the first of them refers with to the second. */
  function ThreeTypes(): Graph {
    Graph([0, 1, 2],
          map[0 := [Ref(0, 0, 1, 0, true), Ref(1, 0, 1, 1, true), Ref(2, 0, 1, 2, true)], 1 := [], 2 := []], 3)
  }

  lemma ThreeTypesHolds(r: Ref)
    ensures Holds(ThreeTypes(), r) <==> r in ThreeTypes().refs[0]
  {
    var g := ThreeTypes();
    assert r.parent in g.refs ==> r.parent == 0 || g.refs[r.parent] == [];
  }

  lemma ThreeTypesResolved()
    ensures Resolved(ThreeTypes())
  {
    var g := ThreeTypes();
    forall n, r | n in g.refs && r in g.refs[n]
      ensures r.parent == n && r.target in g.refs && r.referenceType in g.refs && r.number < g.next {}
    forall n | n in g.refs ensures NoDuplicates(g.refs[n]) { assert n == 0 || g.refs[n] == []; }
  }

  lemma ThreeTypesLinked()
    ensures Linked(ThreeTypes()) && ToPrint(ThreeTypes(), {}, Ref(2, 0, 1, 2, true))
  {
    hide Resolved, Holds;
    ThreeTypesResolved();
    forall r ensures Holds(ThreeTypes(), r) <==> r in ThreeTypes().refs[0] { ThreeTypesHolds(r); }
  }

  lemma ThreeTypesUsed()
    ensures var g := ThreeTypes(); PrintOrder(g, {0, 1, 2}) == [0, 1, 2] + g.nodes
  {
    var g := ThreeTypes();
    var refs := g.refs[0];
    assert AllReferences(g, [0, 1, 2]) == refs by {
      assert [0, 1, 2][..2] == [0, 1] && [0, 1][..1] == [0] && [0][..0] == [];
      assert AllReferences(g, [0]) == AllReferences(g, []) + refs;
    }
    assert RefsUsed(refs, 1, {0, 1, 2}) == [0];
    assert RefsUsed(refs, 2, {0, 1, 2}) == [0, 1];
  }

  /**
   * During the pass the types are not all there: a reference between two of them can be added before the type that
   * it names is created.
   */
  lemma PassNamesLaterType()
    ensures var g := ThreeTypes(); var order := PrintOrder(g, {0, 1, 2});
      && Linked(g) && order[..2] == [0, 1]
      && var s := Exec(Server({}, {}), PrintAll(g, Initial(g, {}), order[..2]).code);
        s.Some? && Edge(0, 2, 1) in s.value.edges && 2 !in s.value.nodes
  {
    hide PrintAll, Initial, Exec, ParentEdges, NoDuplicates, Linked, ToPrint;
    var g := ThreeTypes();
    ThreeTypesLinked();
    ThreeTypesUsed();
    var code := PrintAll(g, Initial(g, {}), [0, 1]).code;
    EdgesSoFar(g, {}, [0, 1], Edge(0, 2, 1));
    assert Norm(Ref(2, 0, 1, 2, true)) == Edge(0, 2, 1);
    forall n ensures CreatedIn(code, n) <==> n in [0, 1] && n in g.nodes { CreatedSoFar(g, {}, [0, 1], n); }
    forall n ensures n in Exec(Server({}, {}), code).value.nodes <==> CreatedIn(code, n) {
      ExecCreates(Server({}, {}), code, n);
    }
  }
}
