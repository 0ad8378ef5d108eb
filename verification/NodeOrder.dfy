/** The order in which nodes are printed: always the lightest one left. */
module NodeOrder {

  /**
   * How a reference counts: type definitions and inverse subtype references weigh on the node that has them, other
   * forward references on their target, and other inverse references not at all.
   */
  datatype Kind = TypeDefinition | InverseSubtype | OrdinaryForward | OrdinaryInverse

  /** Targets are positions in the list of nodes. */
  datatype Ref = Ref(target: nat, kind: Kind)

  ghost predicate Indexed(refs: seq<seq<Ref>>) {
    forall n, k :: 0 <= n < |refs| && 0 <= k < |refs[n]| ==> refs[n][k].target < |refs|
  }

  /** What the first k references of a node add to its own row, in the column of t. */
  function OwnWeight(own: seq<Ref>, k: nat, t: nat): nat
    requires k <= |own|
  {
    if k == 0 then 0 else OwnWeight(own, k - 1, t) + if own[k - 1].target == t then KindWeight(own[k - 1].kind) else 0
  }

  function KindWeight(kind: Kind): nat {
    match kind
    case TypeDefinition => 200
    case InverseSubtype => 100
    case _ => 0
  }

  /** How many of the first k references are ordinary forward ones to t. */
  function Forward(own: seq<Ref>, k: nat, t: nat): nat
    requires k <= |own|
  {
    if k == 0 then 0 else Forward(own, k - 1, t) + if own[k - 1] == Ref(t, OrdinaryForward) then 1 else 0
  }

  /** The matrix entry for row i and column j while the nodes in `placed` have been emitted. */
  function Entry(refs: seq<seq<Ref>>, placed: seq<nat>, i: nat, j: nat): nat
    requires i < |refs| && j < |refs|
  {
    (if i in placed then 0 else OwnWeight(refs[i], |refs[i]|, j)) +
    (if j in placed then 0 else Forward(refs[j], |refs[j]|, i))
  }

  /** The sum of the first m entries of a row. */
  function Weight(refs: seq<seq<Ref>>, placed: seq<nat>, i: nat, m: nat): nat
    requires i < |refs| && m <= |refs|
  {
    if m == 0 then 0 else Weight(refs, placed, i, m - 1) + Entry(refs, placed, i, m - 1)
  }

  function RowWeight(refs: seq<seq<Ref>>, placed: seq<nat>, i: nat): nat
    requires i < |refs|
  {
    Weight(refs, placed, i, |refs|)
  }

  /** The first of the lightest nodes that are not placed. */
  ghost predicate Lightest(refs: seq<seq<Ref>>, placed: seq<nat>, n: nat)
    requires n < |refs|
  {
    && n !in placed
    && forall i :: 0 <= i < |refs| && i !in placed ==>
         RowWeight(refs, placed, n) < RowWeight(refs, placed, i) ||
         (RowWeight(refs, placed, n) == RowWeight(refs, placed, i) && n <= i)
  }

  /** Each node is the first of the lightest ones when it is emitted. */
  ghost predicate Greedy(refs: seq<seq<Ref>>, order: seq<nat>) {
    forall k :: 0 <= k < |order| ==> order[k] < |refs| && Lightest(refs, order[..k], order[k])
  }

  // ---------------------------------------------------------------- the algorithm

  ghost predicate Square(nmatrix: array2<int>, n: nat) { nmatrix.Length0 == n && nmatrix.Length1 == n }

  /** Adds or takes away what the references of a node count. */
  method CountReferences(nmatrix: array2<int>, refs: seq<seq<Ref>>, n: nat, add: bool)
    requires Indexed(refs) && n < |refs| && Square(nmatrix, |refs|)
    modifies nmatrix
    ensures forall i, j :: 0 <= i < |refs| && 0 <= j < |refs| ==>
      nmatrix[i, j] == Counted(old(nmatrix[i, j]), refs[n], |refs[n]|, n, i, j, add)
  {
    var own := refs[n];
    for k := 0 to |own|
      invariant forall i, j :: 0 <= i < |refs| && 0 <= j < |refs| ==>
        nmatrix[i, j] == Counted(old(nmatrix[i, j]), own, k, n, i, j, add)
    {
      var t := own[k].target;
      assert refs[n][k].target < |refs|;
      match own[k].kind
      case TypeDefinition => nmatrix[n, t] := if add then nmatrix[n, t] + 200 else nmatrix[n, t] - 200;
      case InverseSubtype => nmatrix[n, t] := if add then nmatrix[n, t] + 100 else nmatrix[n, t] - 100;
      case OrdinaryForward => nmatrix[t, n] := if add then nmatrix[t, n] + 1 else nmatrix[t, n] - 1;
      case OrdinaryInverse =>
    }
  }

  function Counted(before: int, own: seq<Ref>, k: nat, n: nat, i: nat, j: nat, add: bool): int
    requires k <= |own|
  {
    var d := (if i == n then OwnWeight(own, k, j) else 0) + (if j == n then Forward(own, k, i) else 0);
    if add then before + d else before - d
  }

  ghost predicate Holds(nmatrix: array2<int>, refs: seq<seq<Ref>>, placed: seq<nat>)
    requires Square(nmatrix, |refs|)
    reads nmatrix
  {
    forall i, j :: 0 <= i < |refs| && 0 <= j < |refs| ==> nmatrix[i, j] == Entry(refs, placed, i, j)
  }

  method BuildMatrix(refs: seq<seq<Ref>>) returns (nmatrix: array2<int>)
    requires Indexed(refs)
    ensures fresh(nmatrix) && Square(nmatrix, |refs|) && Holds(nmatrix, refs, [])
  {
    nmatrix := new int[|refs|, |refs|]((i, j) => 0);
    for n := 0 to |refs|
      invariant forall i, j :: 0 <= i < |refs| && 0 <= j < |refs| ==>
        nmatrix[i, j] == (if i < n then OwnWeight(refs[i], |refs[i]|, j) else 0) +
                         (if j < n then Forward(refs[j], |refs[j]|, i) else 0)
    {
      CountReferences(nmatrix, refs, n, true);
    }
  }

  method SumRow(nmatrix: array2<int>, refs: seq<seq<Ref>>, ghost placed: seq<nat>, i: nat) returns (w: int)
    requires i < |refs| && Square(nmatrix, |refs|) && Holds(nmatrix, refs, placed)
    ensures w == RowWeight(refs, placed, i)
  {
    w := 0;
    for j := 0 to |refs|
      invariant w == Weight(refs, placed, i, j)
    {
      w := w + nmatrix[i, j];
    }
  }

  method GetMinWeightNode(nmatrix: array2<int>, refs: seq<seq<Ref>>, isPlaced: array<bool>, ghost placed: seq<nat>)
      returns (rind: nat)
    requires Square(nmatrix, |refs|) && Holds(nmatrix, refs, placed) && isPlaced.Length == |refs|
    requires forall i :: 0 <= i < |refs| ==> isPlaced[i] == (i in placed)
    requires exists i :: 0 <= i < |refs| && i !in placed
    ensures rind < |refs| && Lightest(refs, placed, rind)
  {
    hide RowWeight;
    rind := 0;
    var minweight := -1;
    for i := 0 to |refs|
      invariant minweight < 0 ==> forall a :: 0 <= a < i ==> a in placed
      invariant minweight >= 0 ==> rind < i && rind !in placed && minweight == RowWeight(refs, placed, rind)
      invariant minweight >= 0 ==> forall a :: 0 <= a < i && a !in placed ==>
        minweight < RowWeight(refs, placed, a) || (minweight == RowWeight(refs, placed, a) && rind <= a)
    {
      if !isPlaced[i] {
        var w := SumRow(nmatrix, refs, placed, i);
        if minweight < 0 || w < minweight { rind, minweight := i, w; }
      }
    }
  }

  method ReorderNodesMinDependencies(refs: seq<seq<Ref>>) returns (order: seq<nat>)
    requires Indexed(refs)
    ensures Greedy(refs, order) && |order| == |refs|
  {
    hide Lightest;
    var nmatrix := BuildMatrix(refs);
    var isPlaced := new bool[|refs|](i => false);
    order := [];
    while |order| < |refs|
      invariant |order| <= |refs| && Greedy(refs, order)
      invariant Holds(nmatrix, refs, order)
      invariant forall i :: 0 <= i < |refs| ==> isPlaced[i] == (i in order)
    {
      SomeLeft(|refs|, order);
      var n := GetMinWeightNode(nmatrix, refs, isPlaced, order);
      CountReferences(nmatrix, refs, n, false);
      isPlaced[n] := true;
      GreedyStep(refs, order, n);
      order := order + [n];
    }
  }

  lemma GreedyStep(refs: seq<seq<Ref>>, order: seq<nat>, n: nat)
    requires Greedy(refs, order) && n < |refs| && Lightest(refs, order, n)
    ensures Greedy(refs, order + [n]) && n !in order
  {
    hide RowWeight;
    var more := order + [n];
    forall k | 0 <= k < |more| ensures more[k] < |refs| && Lightest(refs, more[..k], more[k]) {
      if k < |order| { assert more[..k] == order[..k]; } else { assert more[..k] == order; }
    }
  }

  /** Fewer places than nodes: one is left. */
  lemma {:induction false} SomeLeft(n: nat, placed: seq<nat>)
    requires |placed| < n
    ensures exists i :: 0 <= i < n && i !in placed
  {
    if n - 1 in placed {
      var k :| 0 <= k < |placed| && placed[k] == n - 1;
      var rest := placed[..k] + placed[k + 1..];
      SomeLeft(n - 1, rest);
      var i :| 0 <= i < n - 1 && i !in rest;
      assert i !in placed;
    }
  }

  // ---------------------------------------------------------------- what the order is good for

  ghost predicate Permutation(order: seq<nat>, n: nat) {
    && |order| == n
    && (forall k :: 0 <= k < n ==> order[k] < n)
    && (forall j, k :: 0 <= j < k < n ==> order[j] != order[k])
    && (forall i :: 0 <= i < n ==> i in order)
  }

  lemma GreedyIsPermutation(refs: seq<seq<Ref>>, order: seq<nat>)
    requires Greedy(refs, order) && |order| == |refs|
    ensures Permutation(order, |refs|)
  {
    hide RowWeight;
    forall j, k | 0 <= j < k < |order| ensures order[j] != order[k] {
      assert Lightest(refs, order[..k], order[k]);
      assert order[..k][j] == order[j];
    }
    forall i | 0 <= i < |refs| ensures i in order {
      if i !in order { Pigeonhole(order, |refs|, i); }
    }
  }

  lemma Pigeonhole(order: seq<nat>, n: nat, missing: nat)
    requires forall k :: 0 <= k < |order| ==> order[k] < n
    requires forall j, k :: 0 <= j < k < |order| ==> order[j] != order[k]
    requires missing < n && missing !in order
    ensures |order| < n
  {
    DistinctBounded(order + [missing], n);
  }

  lemma {:induction false} DistinctBounded(s: seq<nat>, n: nat)
    requires forall k :: 0 <= k < |s| ==> s[k] < n
    requires forall j, k :: 0 <= j < k < |s| ==> s[j] != s[k]
    ensures |s| <= n
  {
    assert s != [] ==> s[0] < n;
    if n > 0 {
      if k :| 0 <= k < |s| && s[k] == n - 1 {
        DistinctBounded(s[..k] + s[k + 1..], n - 1);
      } else {
        DistinctBounded(s, n - 1);
      }
    }
  }

  // ---------------------------------------------------------------- what a weight is

  /** All type definitions and inverse subtype references among the first k ones. */
  function TypeTotal(own: seq<Ref>, k: nat): nat
    requires k <= |own|
  {
    if k == 0 then 0 else TypeTotal(own, k - 1) + KindWeight(own[k - 1].kind)
  }

  /** A reference by its place: whose it is and where it stands there. */
  datatype Place = Place(node: nat, index: nat)

  /** The reference at a place is an ordinary one to i, from a node before m that is left. */
  predicate Waits(refs: seq<seq<Ref>>, placed: seq<nat>, i: nat, m: nat, x: Place)
    requires m <= |refs|
  {
    x.node < m && x.node !in placed && RefersTo(refs[x.node], |refs[x.node]|, i, x.index)
  }

  predicate RefersTo(own: seq<Ref>, k: nat, i: nat, index: nat)
    requires k <= |own|
  {
    index < k && own[index] == Ref(i, OrdinaryForward)
  }

  function WaitingFor(refs: seq<seq<Ref>>, placed: seq<nat>, i: nat, m: nat): set<Place>
    requires m <= |refs|
  {
    if m == 0 then {}
    else if m - 1 in placed then WaitingFor(refs, placed, i, m - 1)
    else WaitingFor(refs, placed, i, m - 1) + From(m - 1, refs[m - 1], |refs[m - 1]|, i)
  }

  function From(j: nat, own: seq<Ref>, k: nat, i: nat): set<Place>
    requires k <= |own|
  {
    if k == 0 then {}
    else if own[k - 1] == Ref(i, OrdinaryForward) then From(j, own, k - 1, i) + {Place(j, k - 1)}
    else From(j, own, k - 1, i)
  }

  lemma {:induction false} FromMember(j: nat, own: seq<Ref>, k: nat, i: nat, x: Place)
    requires k <= |own|
    ensures x in From(j, own, k, i) <==> x.node == j && RefersTo(own, k, i, x.index)
  {
    if k > 0 { FromMember(j, own, k - 1, i, x); }
  }

  lemma {:induction false} FromSize(j: nat, own: seq<Ref>, k: nat, i: nat)
    requires k <= |own|
    ensures |From(j, own, k, i)| == Forward(own, k, i)
  {
    if k > 0 {
      FromSize(j, own, k - 1, i);
      FromMember(j, own, k - 1, i, Place(j, k - 1));
    }
  }

  lemma {:induction false} WaitingForMember(refs: seq<seq<Ref>>, placed: seq<nat>, i: nat, m: nat, x: Place)
    requires m <= |refs|
    ensures x in WaitingFor(refs, placed, i, m) <==> Waits(refs, placed, i, m, x)
  {
    hide RefersTo, From;
    if m > 0 {
      WaitingForMember(refs, placed, i, m - 1, x);
      FromMember(m - 1, refs[m - 1], |refs[m - 1]|, i, x);
    }
  }

  /** The own weights in the first m columns. */
  function OwnSum(own: seq<Ref>, k: nat, m: nat): nat
    requires k <= |own|
  {
    if m == 0 then 0 else OwnSum(own, k, m - 1) + OwnWeight(own, k, m - 1)
  }

  lemma {:induction false} OwnSumStep(own: seq<Ref>, k: nat, m: nat)
    requires k < |own|
    ensures OwnSum(own, k + 1, m) ==
            OwnSum(own, k, m) + if own[k].target < m then KindWeight(own[k].kind) else 0
  {
    if m > 0 { OwnSumStep(own, k, m - 1); }
  }

  lemma {:induction false} OwnSumIsTotal(own: seq<Ref>, k: nat, m: nat)
    requires k <= |own| && forall a :: 0 <= a < |own| ==> own[a].target < m
    ensures OwnSum(own, k, m) == TypeTotal(own, k)
  {
    if k > 0 {
      OwnSumIsTotal(own, k - 1, m);
      OwnSumStep(own, k - 1, m);
    } else {
      NothingSums(own, m);
    }
  }

  lemma {:induction false} NothingSums(own: seq<Ref>, m: nat)
    ensures OwnSum(own, 0, m) == 0
  {
    if m > 0 { NothingSums(own, m - 1); }
  }

  lemma {:induction false} WeightSplits(refs: seq<seq<Ref>>, placed: seq<nat>, i: nat, m: nat)
    requires i < |refs| && i !in placed && m <= |refs|
    ensures Weight(refs, placed, i, m) == OwnSum(refs[i], |refs[i]|, m) + |WaitingFor(refs, placed, i, m)|
  {
    hide Forward, OwnWeight, From;
    if m > 0 {
      WeightSplits(refs, placed, i, m - 1);
      var before, here := WaitingFor(refs, placed, i, m - 1), From(m - 1, refs[m - 1], |refs[m - 1]|, i);
      FromSize(m - 1, refs[m - 1], |refs[m - 1]|, i);
      forall x | x in here ensures x !in before {
        FromMember(m - 1, refs[m - 1], |refs[m - 1]|, i, x);
        WaitingForMember(refs, placed, i, m - 1, x);
      }
      assert |before + here| == |before| + |here|;
    }
  }

  /** A node that is left weighs what its own types do, and one for each ordinary reference from a node that is left. */
  lemma WeightMeans(refs: seq<seq<Ref>>, placed: seq<nat>, i: nat)
    requires Indexed(refs) && i < |refs| && i !in placed
    ensures RowWeight(refs, placed, i) ==
            TypeTotal(refs[i], |refs[i]|) + |WaitingFor(refs, placed, i, |refs|)|
    ensures forall x :: x in WaitingFor(refs, placed, i, |refs|) <==> Waits(refs, placed, i, |refs|, x)
  {
    hide Waits, WaitingFor, OwnSum, TypeTotal, Weight;
    WeightSplits(refs, placed, i, |refs|);
    forall a | 0 <= a < |refs[i]| ensures refs[i][a].target < |refs| {}
    OwnSumIsTotal(refs[i], |refs[i]|, |refs|);
    forall x ensures x in WaitingFor(refs, placed, i, |refs|) <==> Waits(refs, placed, i, |refs|, x) {
      WaitingForMember(refs, placed, i, |refs|, x);
    }
  }

  // ---------------------------------------------------------------- which of two nodes comes first

  /** One node comes before another. */
  ghost predicate Precedes(order: seq<nat>, t: nat, n: nat) {
    exists a, b :: 0 <= a < b < |order| && order[a] == t && order[b] == n
  }

  ghost predicate NotHeavier(refs: seq<seq<Ref>>, placed: seq<nat>, t: nat, n: nat)
    requires t < |refs| && n < |refs|
  {
    && t !in placed && n !in placed
    && (RowWeight(refs, placed, t) < RowWeight(refs, placed, n) ||
        (RowWeight(refs, placed, t) == RowWeight(refs, placed, n) && t <= n))
  }

  /** Of two nodes, exactly one comes first, and it is not heavier at that point. */
  lemma OneComesFirst(refs: seq<seq<Ref>>, order: seq<nat>, t: nat, n: nat)
    requires Greedy(refs, order) && |order| == |refs| && t < |refs| && n < |refs| && t != n
    ensures Precedes(order, t, n) <==> !Precedes(order, n, t)
    ensures Precedes(order, t, n) ==>
      exists a :: 0 <= a < |order| && order[a] == t && NotHeavier(refs, order[..a], t, n)
  {
    hide RowWeight;
    GreedyIsPermutation(refs, order);
    assert t in order && n in order;
    var a :| 0 <= a < |order| && order[a] == t;
    var b :| 0 <= b < |order| && order[b] == n;
    if a < b {
      assert Lightest(refs, order[..a], t);
      assert n !in order[..a];
      assert NotHeavier(refs, order[..a], t, n);
    }
  }

  /** What the own type definitions and inverse subtype references of a node weigh. */
  function Own(refs: seq<seq<Ref>>, i: nat): nat
    requires i < |refs|
  {
    TypeTotal(refs[i], |refs[i]|)
  }

  /** There is an ordinary forward reference from j to i. */
  ghost predicate Refers(refs: seq<seq<Ref>>, j: nat, i: nat) {
    j < |refs| && exists k :: 0 <= k < |refs[j]| && refs[j][k] == Ref(i, OrdinaryForward)
  }

  /** With more nodes emitted, a node that is left is not heavier. */
  lemma WeightFalls(refs: seq<seq<Ref>>, placed: seq<nat>, more: seq<nat>, i: nat)
    requires Indexed(refs) && i < |refs| && i !in placed && i !in more && forall x :: x in placed ==> x in more
    ensures Own(refs, i) <= RowWeight(refs, more, i) <= RowWeight(refs, placed, i)
  {
    hide RowWeight, TypeTotal, WaitingFor;
    WeightMeans(refs, placed, i);
    WeightMeans(refs, more, i);
    var now, all := WaitingFor(refs, more, i, |refs|), WaitingFor(refs, placed, i, |refs|);
    forall x | x in now ensures x in all { assert Waits(refs, more, i, |refs|, x); }
    assert all == now + (all - now);
  }

  /** A node weighs its types alone exactly if no node that refers to it is left. */
  lemma NothingWaits(refs: seq<seq<Ref>>, placed: seq<nat>, i: nat)
    requires Indexed(refs) && i < |refs| && i !in placed
    ensures RowWeight(refs, placed, i) == Own(refs, i) <==> forall j: nat :: Refers(refs, j, i) ==> j in placed
  {
    hide RowWeight, TypeTotal, WaitingFor;
    WeightMeans(refs, placed, i);
    var w := WaitingFor(refs, placed, i, |refs|);
    if forall j: nat :: Refers(refs, j, i) ==> j in placed {
      forall x ensures x !in w {
        assert Waits(refs, placed, i, |refs|, x) ==> Refers(refs, x.node, i);
      }
      assert w == {};
    } else {
      var j: nat :| Refers(refs, j, i) && j !in placed;
      var k :| 0 <= k < |refs[j]| && refs[j][k] == Ref(i, OrdinaryForward);
      assert Waits(refs, placed, i, |refs|, Place(j, k));
      assert Place(j, k) in w;
    }
  }

  // ---------------------------------------------------------------- the nodes below a weight

  /** The first node from i on that is left and lighter than a limit, or the number of nodes. */
  function FirstBelow(refs: seq<seq<Ref>>, limit: nat, placed: seq<nat>, i: nat): (r: nat)
    requires i <= |refs|
    ensures i <= r <= |refs|
    ensures r < |refs| ==> r !in placed && RowWeight(refs, placed, r) < limit
    ensures forall j :: i <= j < r ==> j in placed || RowWeight(refs, placed, j) >= limit
    decreases |refs| - i
  {
    if i == |refs| || (i !in placed && RowWeight(refs, placed, i) < limit) then i
    else FirstBelow(refs, limit, placed, i + 1)
  }

  /** Different nodes, each lighter than a limit once those before it are emitted. */
  ghost predicate Peeling(refs: seq<seq<Ref>>, limit: nat, s: seq<nat>) {
    forall k :: 0 <= k < |s| ==> s[k] < |refs| && s[k] !in s[..k] && RowWeight(refs, s[..k], s[k]) < limit
  }

  lemma PeelingIsBounded(refs: seq<seq<Ref>>, limit: nat, s: seq<nat>)
    requires Peeling(refs, limit, s)
    ensures |s| <= |refs|
  {
    hide RowWeight;
    forall j, k | 0 <= j < k < |s| ensures s[j] != s[k] { assert s[..k][j] == s[j]; }
    DistinctBounded(s, |refs|);
  }

  lemma PeelingGrows(refs: seq<seq<Ref>>, limit: nat, s: seq<nat>, n: nat)
    requires Peeling(refs, limit, s) && n < |refs| && n !in s && RowWeight(refs, s, n) < limit
    ensures Peeling(refs, limit, s + [n])
  {
    hide RowWeight;
    var more := s + [n];
    forall k | 0 <= k < |more|
      ensures more[k] < |refs| && more[k] !in more[..k] && RowWeight(refs, more[..k], more[k]) < limit {
      if k < |s| { assert more[..k] == s[..k]; } else { assert more[..k] == s; }
    }
  }

  /** Takes nodes lighter than the limit as long as there are any; how heavy others are does not matter. */
  function Peel(refs: seq<seq<Ref>>, limit: nat, s: seq<nat>): (r: seq<nat>)
    requires Peeling(refs, limit, s)
    ensures Peeling(refs, limit, r)
    ensures forall i :: 0 <= i < |refs| ==> i in r || RowWeight(refs, r, i) >= limit
    decreases |refs| - |s|
  {
    var n := FirstBelow(refs, limit, s, 0);
    if n == |refs| then s
    else
      PeelingGrows(refs, limit, s, n);
      PeelingIsBounded(refs, limit, s + [n]);
      Peel(refs, limit, s + [n])
  }

  function Below(refs: seq<seq<Ref>>, limit: nat): (r: seq<nat>)
    ensures Peeling(refs, limit, r)
    ensures forall i :: 0 <= i < |refs| ==> i in r || RowWeight(refs, r, i) >= limit
  {
    Peel(refs, limit, [])
  }

  /** As long as nodes below the limit are left, one of them is emitted. */
  lemma BelowIsNext(refs: seq<seq<Ref>>, limit: nat, placed: seq<nat>, x: nat, q: nat)
    requires Indexed(refs) && x < |refs| && Lightest(refs, placed, x)
    requires forall i :: i in placed ==> i in Below(refs, limit)
    requires q in Below(refs, limit) && q !in placed
    ensures x in Below(refs, limit)
  {
    hide RowWeight, Peel;
    var s := Below(refs, limit);
    if x !in s {
      var k := FirstMissing(s, placed, q);
      assert forall i :: i in s[..k] ==> i in placed;
      WeightFalls(refs, s[..k], placed, s[k]);
      WeightFalls(refs, placed, s, x);
      assert false;
    }
  }

  lemma FirstMissing(s: seq<nat>, placed: seq<nat>, q: nat) returns (k: nat)
    requires q in s && q !in placed
    ensures k < |s| && s[k] !in placed && forall i :: i in s[..k] ==> i in placed
  {
    k := 0;
    while s[k] in placed
      invariant k < |s| && (forall i :: i in s[..k] ==> i in placed)
      invariant q in s[k..]
      decreases |s| - k
    {
      assert s[..k + 1] == s[..k] + [s[k]] && s[k..] == [s[k]] + s[k + 1..];
      k := k + 1;
    }
  }

  /**
   * Whatever the references are: the nodes below any limit come first.  They are found by taking light nodes in
   * any order, so that this is a statement about the order, not the algorithm again.
   */
  lemma BelowComesFirst(refs: seq<seq<Ref>>, order: seq<nat>, limit: nat, t: nat, n: nat)
    requires Indexed(refs) && Greedy(refs, order) && |order| == |refs| && n < |refs|
    requires t in Below(refs, limit) && n !in Below(refs, limit)
    ensures t < |refs| && Precedes(order, t, n)
  {
    hide RowWeight, Below;
    BelowAreNodes(refs, limit, t);
    GreedyIsPermutation(refs, order);
    assert t in order && n in order;
    var b :| 0 <= b < |order| && order[b] == n;
    var a :| 0 <= a < |order| && order[a] == t;
    if b < a {
      var c := FirstOutside(refs, order, limit, b);
      var placed := order[..c];
      assert t !in placed by { forall i | 0 <= i < c ensures order[i] != t { assert order[i] != order[a]; } }
      assert Lightest(refs, placed, order[c]);
      BelowIsNext(refs, limit, placed, order[c], t);
      assert false;
    }
    assert a != b;
  }

  lemma BelowAreNodes(refs: seq<seq<Ref>>, limit: nat, t: nat)
    requires t in Below(refs, limit)
    ensures t < |refs|
  {
    hide Peel, RowWeight;
    var s := Below(refs, limit);
    var k :| 0 <= k < |s| && s[k] == t;
  }

  /** The first node of the order that is not below the limit. */
  lemma FirstOutside(refs: seq<seq<Ref>>, order: seq<nat>, limit: nat, b: nat) returns (c: nat)
    requires b < |order| && order[b] !in Below(refs, limit)
    ensures c <= b && order[c] !in Below(refs, limit) && forall i :: i in order[..c] ==> i in Below(refs, limit)
  {
    hide Below;
    c := 0;
    while order[c] in Below(refs, limit)
      invariant c <= b && forall i :: i in order[..c] ==> i in Below(refs, limit)
      decreases b - c
    {
      assert order[..c + 1] == order[..c] + [order[c]];
      c := c + 1;
    }
  }

  /** The two nodes are below the same limits. */
  ghost predicate SameLevel(refs: seq<seq<Ref>>, t: nat, n: nat) {
    forall limit: nat :: t in Below(refs, limit) <==> n in Below(refs, limit)
  }

  /** Of two nodes that are not on the same level, the one that is below the lower limit comes first. */
  lemma LevelsDecide(refs: seq<seq<Ref>>, order: seq<nat>, t: nat, n: nat)
    requires Indexed(refs) && Greedy(refs, order) && |order| == |refs| && t < |refs| && n < |refs|
    requires !SameLevel(refs, t, n)
    ensures Precedes(order, t, n) <==> exists limit: nat :: t in Below(refs, limit) && n !in Below(refs, limit)
  {
    hide RowWeight, Below, Greedy;
    if limit: nat :| t in Below(refs, limit) && n !in Below(refs, limit) {
      BelowComesFirst(refs, order, limit, t, n);
    } else {
      var limit: nat :| n in Below(refs, limit) && t !in Below(refs, limit);
      BelowComesFirst(refs, order, limit, n, t);
      OneComesFirst(refs, order, t, n);
    }
  }

  /**
   * Two nodes above a limit to which only nodes below it refer stand in the order of what their own types weigh;
   * the old order decides between equal weights.
   */
  lemma TypesDecideAbove(refs: seq<seq<Ref>>, order: seq<nat>, limit: nat, t: nat, n: nat)
    requires Indexed(refs) && Greedy(refs, order) && |order| == |refs| && t < |refs| && n < |refs| && t != n
    requires t !in Below(refs, limit) && n !in Below(refs, limit)
    requires forall j: nat :: Refers(refs, j, t) || Refers(refs, j, n) ==> j in Below(refs, limit)
    ensures Precedes(order, t, n) <==> Own(refs, t) < Own(refs, n) || (Own(refs, t) == Own(refs, n) && t < n)
  {
    hide RowWeight, Own, Below, Greedy, Precedes, Refers;
    OneComesFirst(refs, order, t, n);
    OneComesFirst(refs, order, n, t);
    if Precedes(order, t, n) {
      var a :| 0 <= a < |order| && order[a] == t && NotHeavier(refs, order[..a], t, n);
      OwnWeightsLeft(refs, order, limit, a, t, n);
    } else {
      var a :| 0 <= a < |order| && order[a] == n && NotHeavier(refs, order[..a], n, t);
      OwnWeightsLeft(refs, order, limit, a, n, t);
    }
  }

  lemma OwnWeightsLeft(refs: seq<seq<Ref>>, order: seq<nat>, limit: nat, a: nat, t: nat, n: nat)
    requires Indexed(refs) && Greedy(refs, order) && |order| == |refs| && t < |refs| && n < |refs|
    requires a < |order| && order[a] == t && t !in Below(refs, limit)
    requires t !in order[..a] && n !in order[..a]
    requires forall j: nat :: Refers(refs, j, t) || Refers(refs, j, n) ==> j in Below(refs, limit)
    ensures RowWeight(refs, order[..a], t) == Own(refs, t) && RowWeight(refs, order[..a], n) == Own(refs, n)
  {
    hide RowWeight, Own, Below, Refers, Greedy;
    forall j | j in Below(refs, limit) ensures j in order[..a] {
      BelowComesFirst(refs, order, limit, j, t);
      BeforeIsPlaced(refs, order, j, t, a);
    }
    NothingWaits(refs, order[..a], t);
    NothingWaits(refs, order[..a], n);
  }

  lemma BeforeIsPlaced(refs: seq<seq<Ref>>, order: seq<nat>, j: nat, t: nat, a: nat)
    requires Greedy(refs, order) && |order| == |refs| && Precedes(order, j, t) && a < |order| && order[a] == t
    ensures j in order[..a]
  {
    hide RowWeight;
    GreedyIsPermutation(refs, order);
    var i, b :| 0 <= i < b < |order| && order[i] == j && order[b] == t;
    assert a == b;
    assert order[..a][i] == j;
  }

  // ---------------------------------------------------------------- types that weigh more along references

  /**
   * No node refers to itself through others, as the rank grows along ordinary forward references, and the types of
   * a node weigh at least what those of the nodes that refer to it do.
   */
  ghost predicate Typed(refs: seq<seq<Ref>>, rank: seq<nat>) {
    && |rank| == |refs| && Indexed(refs)
    && forall j: nat, i: nat :: i < |refs| && Refers(refs, j, i) ==> rank[j] < rank[i] && Own(refs, j) <= Own(refs, i)
  }

  /** Then a node is below every limit that is above its own types. */
  lemma {:induction false} TypedIsBelow(refs: seq<seq<Ref>>, rank: seq<nat>, limit: nat, t: nat)
    requires Typed(refs, rank) && t < |refs| && Own(refs, t) < limit
    ensures t in Below(refs, limit)
    decreases if t < |rank| then rank[t] else 0
  {
    hide RowWeight, Own, Refers, Peel;
    var s := Below(refs, limit);
    if t !in s {
      forall j: nat | Refers(refs, j, t) ensures j in s {
        assert j < |refs| by { ReferrerIsNode(refs, j, t); }
        TypedIsBelow(refs, rank, limit, j);
      }
      NothingWaits(refs, s, t);
      assert false;
    }
  }

  lemma ReferrerIsNode(refs: seq<seq<Ref>>, j: nat, i: nat)
    requires Refers(refs, j, i)
    ensures j < |refs|
  {
  }

  lemma NotBelowOwn(refs: seq<seq<Ref>>, limit: nat, n: nat)
    requires Indexed(refs) && n < |refs| && limit <= Own(refs, n)
    ensures n !in Below(refs, limit)
  {
    hide RowWeight, Own, Peel;
    var s := Below(refs, limit);
    if n in s {
      var k :| 0 <= k < |s| && s[k] == n;
      WeightFalls(refs, s[..k], s[..k], n);
      assert false;
    }
  }

  /** Lighter types come first. */
  lemma LighterTypesFirst(refs: seq<seq<Ref>>, rank: seq<nat>, order: seq<nat>, t: nat, n: nat)
    requires Typed(refs, rank) && Greedy(refs, order) && |order| == |refs| && t < |refs| && n < |refs|
    requires Own(refs, t) != Own(refs, n)
    ensures Precedes(order, t, n) <==> Own(refs, t) < Own(refs, n)
  {
    hide RowWeight, Own, Below, Greedy, Precedes, Refers;
    var (a, b) := if Own(refs, t) < Own(refs, n) then (t, n) else (n, t);
    TypedIsBelow(refs, rank, Own(refs, b), a);
    NotBelowOwn(refs, Own(refs, b), b);
    BelowComesFirst(refs, order, Own(refs, b), a, b);
    OneComesFirst(refs, order, t, n);
  }

  /** And the old order decides between nodes of equal types to which only nodes of lighter types refer. */
  lemma TypesDecide(refs: seq<seq<Ref>>, rank: seq<nat>, order: seq<nat>, t: nat, n: nat)
    requires Typed(refs, rank) && Greedy(refs, order) && |order| == |refs| && t < |refs| && n < |refs| && t != n
    requires forall j: nat :: Refers(refs, j, t) ==> Own(refs, j) < Own(refs, t)
    requires forall j: nat :: Refers(refs, j, n) ==> Own(refs, j) < Own(refs, n)
    ensures Precedes(order, t, n) <==> Own(refs, t) < Own(refs, n) || (Own(refs, t) == Own(refs, n) && t < n)
  {
    hide RowWeight, Own, Below, Greedy, Precedes, Refers;
    if Own(refs, t) != Own(refs, n) {
      LighterTypesFirst(refs, rank, order, t, n);
    } else {
      var limit := Own(refs, t);
      NotBelowOwn(refs, limit, t);
      NotBelowOwn(refs, limit, n);
      forall j: nat | Refers(refs, j, t) || Refers(refs, j, n) ensures j in Below(refs, limit) {
        if Refers(refs, j, t) { ReferrerIsNode(refs, j, t); } else { ReferrerIsNode(refs, j, n); }
        TypedIsBelow(refs, rank, limit, j);
      }
      TypesDecideAbove(refs, order, limit, t, n);
    }
  }

  /** Above a node that is left there is always one on which nothing waits that is left. */
  lemma {:induction false} FreeAncestor(refs: seq<seq<Ref>>, rank: seq<nat>, placed: seq<nat>, t: nat)
      returns (a: nat)
    requires Typed(refs, rank) && t < |refs| && t !in placed
    ensures a < |refs| && a !in placed && RowWeight(refs, placed, a) == Own(refs, a) <= Own(refs, t)
    decreases if t < |rank| then rank[t] else 0
  {
    hide RowWeight, Own, Refers;
    NothingWaits(refs, placed, t);
    a := t;
    if j: nat :| Refers(refs, j, t) && j !in placed {
      ReferrerIsNode(refs, j, t);
      a := FreeAncestor(refs, rank, placed, j);
    }
  }

  /** Every node comes after all nodes that refer to it by an ordinary forward reference. */
  lemma ReferencedAfterReferencing(refs: seq<seq<Ref>>, rank: seq<nat>, order: seq<nat>, n: nat, t: nat)
    requires Typed(refs, rank) && Greedy(refs, order) && |order| == |refs| && t < |refs| && Refers(refs, n, t)
    ensures Precedes(order, n, t)
  {
    hide RowWeight, Own, Refers, Greedy;
    ReferrerIsNode(refs, n, t);
    assert n != t;
    OneComesFirst(refs, order, n, t);
    OneComesFirst(refs, order, t, n);
    if Precedes(order, t, n) {
      var a :| 0 <= a < |order| && order[a] == t && NotHeavier(refs, order[..a], t, n);
      var free := FreeAncestor(refs, rank, order[..a], n);
      assert Lightest(refs, order[..a], t) by { GreedyAt(refs, order, a); }
      WeightFalls(refs, order[..a], order[..a], t);
      NothingWaits(refs, order[..a], t);
      assert false;
    }
  }

  lemma GreedyAt(refs: seq<seq<Ref>>, order: seq<nat>, a: nat)
    requires Greedy(refs, order) && a < |order|
    ensures order[a] < |refs| && Lightest(refs, order[..a], order[a])
  {
    hide RowWeight;
  }

  // ---------------------------------------------------------------- few references

  /** Fewer ordinary forward references lead to the node than the lightest type weighs. */
  ghost predicate Few(refs: seq<seq<Ref>>, i: nat)
    requires i < |refs|
  {
    |WaitingFor(refs, [], i, |refs|)| < 100
  }

  lemma {:induction false} TypesAreHundreds(own: seq<Ref>, k: nat)
    requires k <= |own|
    ensures TypeTotal(own, k) % 100 == 0
  {
    if k > 0 { TypesAreHundreds(own, k - 1); }
  }

  /** A node comes first that is lighter, with all references to it, than the types of the other alone. */
  lemma LightComesFirst(refs: seq<seq<Ref>>, order: seq<nat>, t: nat, n: nat)
    requires Indexed(refs) && Greedy(refs, order) && |order| == |refs| && t < |refs| && n < |refs|
    requires Own(refs, t) + |WaitingFor(refs, [], t, |refs|)| < Own(refs, n)
    ensures Precedes(order, t, n)
  {
    hide RowWeight, TypeTotal, WaitingFor, Below, Greedy, Precedes;
    var limit := Own(refs, n);
    NotBelowOwn(refs, limit, n);
    if t !in Below(refs, limit) {
      WeightMeans(refs, [], t);
      WeightFalls(refs, [], Below(refs, limit), t);
      NotBelowWeighs(refs, limit, t);
      assert false;
    }
    BelowComesFirst(refs, order, limit, t, n);
  }

  lemma NotBelowWeighs(refs: seq<seq<Ref>>, limit: nat, t: nat)
    requires t < |refs| && t !in Below(refs, limit)
    ensures limit <= RowWeight(refs, Below(refs, limit), t)
  {
    hide RowWeight, Peel;
  }

  /** Lighter types come first, whatever refers to what, where few references lead to both nodes. */
  lemma FewDecide(refs: seq<seq<Ref>>, order: seq<nat>, t: nat, n: nat)
    requires Indexed(refs) && Greedy(refs, order) && |order| == |refs| && t < |refs| && n < |refs|
    requires Own(refs, t) != Own(refs, n) && Few(refs, t) && Few(refs, n)
    ensures Precedes(order, t, n) <==> Own(refs, t) < Own(refs, n)
  {
    hide RowWeight, TypeTotal, WaitingFor, Greedy, Precedes;
    TypesAreHundreds(refs[t], |refs[t]|);
    TypesAreHundreds(refs[n], |refs[n]|);
    if Own(refs, t) < Own(refs, n) { LightComesFirst(refs, order, t, n); } else { LightComesFirst(refs, order, n, t); }
    OneComesFirst(refs, order, t, n);
  }

  /** The order keeps all ordinary forward references. */
  ghost predicate Respects(refs: seq<seq<Ref>>, order: seq<nat>) {
    forall n: nat, t: nat :: t < |refs| && Refers(refs, n, t) ==> Precedes(order, n, t)
  }

  /** Where each node is in the order. */
  lemma PlacesAreRanks(refs: seq<seq<Ref>>, order: seq<nat>) returns (rank: seq<nat>)
    requires Greedy(refs, order) && |order| == |refs|
    ensures |rank| == |refs|
    ensures forall j, i :: 0 <= j < |refs| && 0 <= i < |refs| && Precedes(order, j, i) ==> rank[j] < rank[i]
  {
    hide RowWeight;
    GreedyIsPermutation(refs, order);
    rank := [];
    for i := 0 to |refs|
      invariant |rank| == i && forall j :: 0 <= j < i ==> rank[j] < |order| && order[rank[j]] == j
    {
      assert i in order;
      var k :| 0 <= k < |order| && order[k] == i;
      rank := rank + [k];
    }
    forall j, i | 0 <= j < |refs| && 0 <= i < |refs| && Precedes(order, j, i) ensures rank[j] < rank[i] {
      var a, b :| 0 <= a < b < |order| && order[a] == j && order[b] == i;
      assert a == rank[j] && b == rank[i];
    }
  }

  /**
   * Where few references lead to each node, every node comes after all that refer to it if and only if no node
   * refers to itself through others and types do not get lighter along the references.
   */
  lemma RespectsIff(refs: seq<seq<Ref>>, order: seq<nat>)
    requires Indexed(refs) && Greedy(refs, order) && |order| == |refs|
    requires forall i :: 0 <= i < |refs| ==> Few(refs, i)
    ensures Respects(refs, order) <==> exists rank :: Typed(refs, rank)
  {
    hide RowWeight, Own, Refers, Greedy, Precedes, Few;
    if rank :| Typed(refs, rank) {
      forall n: nat, t: nat | t < |refs| && Refers(refs, n, t) ensures Precedes(order, n, t) {
        ReferencedAfterReferencing(refs, rank, order, n, t);
      }
    }
    if Respects(refs, order) {
      var rank := PlacesAreRanks(refs, order);
      forall j: nat, i: nat | i < |refs| && Refers(refs, j, i)
        ensures j < |refs| && rank[j] < rank[i] && Own(refs, j) <= Own(refs, i) {
        ReferrerIsNode(refs, j, i);
        if Own(refs, j) > Own(refs, i) { FewDecide(refs, order, j, i); }
      }
      assert Typed(refs, rank);
    }
  }

  // ---------------------------------------------------------------- a type after its instance

  /**
   * A node of a type that is a subtype of two others, with the forward references that linking adds; the last two
   * nodes are the reference types.
   */
  function TypedNodes(): seq<seq<Ref>> {
    [[Ref(1, TypeDefinition)], [Ref(2, InverseSubtype), Ref(3, InverseSubtype)],
     [Ref(1, OrdinaryForward)], [Ref(1, OrdinaryForward)], [], []]
  }

  lemma TypedNodesOwn(i: nat)
    requires i < 6
    ensures Own(TypedNodes(), i) == if i < 2 then 200 else 0
  {
    var own := TypedNodes()[1];
    assert TypeTotal(own, 2) == TypeTotal(own, 1) + 100;
  }

  lemma TypedNodesRefer(j: nat, i: nat)
    ensures Refers(TypedNodes(), j, i) <==> i == 1 && (j == 2 || j == 3)
  {
    if j == 2 || j == 3 { assert TypedNodes()[j][0] == Ref(1, OrdinaryForward); }
  }

  lemma TypedNodesAreIndexed()
    ensures Indexed(TypedNodes())
  {
  }

  lemma TypedNodesAreTyped()
    ensures Typed(TypedNodes(), [0, 1, 0, 0, 0, 0])
  {
    hide Own, Refers;
    TypedNodesAreIndexed();
    var refs, rank: seq<nat> := TypedNodes(), [0, 1, 0, 0, 0, 0];
    forall j: nat, i: nat | i < |refs| && Refers(refs, j, i)
      ensures j < |refs| && rank[j] < rank[i] && Own(refs, j) <= Own(refs, i) {
      TypedNodesRefer(j, i);
      TypedNodesOwn(j);
    }
  }

  /** The second node is the type of the first one and comes after it. */
  lemma TypeAfterInstance(order: seq<nat>)
    requires Greedy(TypedNodes(), order) && |order| == |TypedNodes()|
    ensures Precedes(order, 0, 1)
  {
    hide Own, Refers, Greedy, Precedes;
    TypedNodesAreTyped();
    TypedNodesOwn(0);
    TypedNodesOwn(1);
    forall j: nat, i: nat | Refers(TypedNodes(), j, i)
      ensures i == 1 && j < |TypedNodes()| && Own(TypedNodes(), j) == 0 {
      TypedNodesRefer(j, i);
      TypedNodesOwn(j);
    }
    TypesDecide(TypedNodes(), [0, 1, 0, 0, 0, 0], order, 0, 1);
  }
}
