/** The inheritance graph of the canon: `ensure_valid_graph` (backend/app/v2/domain.py) and the two
    places that call it before they store a relationship. */
module CanonGraph {
  datatype GraphEdge = GraphEdge(source: string, target: string, relationType: string)

  const ACYCLIC_RELATION_TYPES: set<string> := {"IS_A", "INSTANCE_OF"}

  // ---------------------------------------------------------------- what a cycle is

  predicate Inherits(edges: seq<GraphEdge>, a: string, b: string) {
    exists i :: 0 <= i < |edges| && edges[i].relationType in ACYCLIC_RELATION_TYPES
                && edges[i].source == a && edges[i].target == b
  }

  /** Only IS_A and INSTANCE_OF inherit. */
  lemma InheritsMeans(edges: seq<GraphEdge>, a: string, b: string)
    ensures Inherits(edges, a, b) <==> GraphEdge(a, b, "IS_A") in edges || GraphEdge(a, b, "INSTANCE_OF") in edges
  {
    if GraphEdge(a, b, "IS_A") in edges {
      var i :| 0 <= i < |edges| && edges[i] == GraphEdge(a, b, "IS_A");
      assert edges[i].relationType in ACYCLIC_RELATION_TYPES;
    } else if GraphEdge(a, b, "INSTANCE_OF") in edges {
      var i :| 0 <= i < |edges| && edges[i] == GraphEdge(a, b, "INSTANCE_OF");
      assert edges[i].relationType in ACYCLIC_RELATION_TYPES;
    }
  }

  predicate Walk(edges: seq<GraphEdge>, p: seq<string>) {
    |p| >= 1 && forall i :: 0 <= i < |p| - 1 ==> Inherits(edges, p[i], p[i + 1])
  }

  predicate WalkBetween(edges: seq<GraphEdge>, p: seq<string>, a: string, b: string) {
    Walk(edges, p) && p[0] == a && p[|p| - 1] == b
  }

  ghost predicate Reaches(edges: seq<GraphEdge>, a: string, b: string) {
    exists p :: WalkBetween(edges, p, a, b)
  }

  predicate Closed(edges: seq<GraphEdge>, p: seq<string>) {
    |p| >= 2 && WalkBetween(edges, p, p[0], p[0])
  }

  ghost predicate HasCycle(edges: seq<GraphEdge>) {
    exists p :: Closed(edges, p)
  }

  // ---------------------------------------------------------------- adjacency

  type Adjacency = map<string, set<string>>

  ghost predicate AdjacencyOf(adjacency: Adjacency, edges: seq<GraphEdge>) {
    && (forall a :: a in adjacency ==> adjacency[a] != {})
    && (forall a, b :: (a in adjacency && b in adjacency[a]) <==> Inherits(edges, a, b))
  }

  /** `adjacency.setdefault(source, set()).add(target)` for each edge that matters. */
  method BuildAdjacency(edges: seq<GraphEdge>) returns (adjacency: Adjacency)
    ensures AdjacencyOf(adjacency, edges)
  {
    adjacency := map[];
    for i := 0 to |edges|
      invariant AdjacencyOf(adjacency, edges[..i])
    {
      var edge := edges[i];
      InheritsSnoc(edges, i);
      ghost var before := adjacency;
      if edge.relationType in ACYCLIC_RELATION_TYPES {
        adjacency := adjacency[edge.source := Neighbours(adjacency, edge.source) + {edge.target}];
      }
      forall a, b
        ensures (a in adjacency && b in adjacency[a]) <==> Inherits(edges[..i + 1], a, b)
      {
        assert (a in before && b in before[a]) <==> Inherits(edges[..i], a, b);
      }
    }
    assert edges[..|edges|] == edges;
  }

  lemma InheritsSnoc(edges: seq<GraphEdge>, i: nat)
    requires i < |edges|
    ensures forall a, b :: Inherits(edges[..i + 1], a, b) <==>
              (Inherits(edges[..i], a, b)
               || (edges[i].relationType in ACYCLIC_RELATION_TYPES && edges[i].source == a && edges[i].target == b))
  {
    assert edges[..i + 1] == edges[..i] + [edges[i]];
    InheritsAppend(edges[..i], edges[i]);
  }

  lemma InheritsAppend(edges: seq<GraphEdge>, e: GraphEdge)
    ensures forall a, b :: Inherits(edges + [e], a, b) <==>
              (Inherits(edges, a, b)
               || (e.relationType in ACYCLIC_RELATION_TYPES && e.source == a && e.target == b))
  {
    forall a, b
      ensures Inherits(edges + [e], a, b) <==>
        (Inherits(edges, a, b) || (e.relationType in ACYCLIC_RELATION_TYPES && e.source == a && e.target == b))
    {
      var longer := edges + [e];
      if Inherits(edges, a, b) {
        var i :| 0 <= i < |edges| && edges[i].relationType in ACYCLIC_RELATION_TYPES
                 && edges[i].source == a && edges[i].target == b;
        assert longer[i] == edges[i];
      }
      assert longer[|edges|] == e;
    }
  }

  // ---------------------------------------------------------------- the depth-first check

  /** Every node stands behind all the nodes it inherits from. */
  ghost predicate Topological(adjacency: Adjacency, finished: seq<string>) {
    forall i, b :: 0 <= i < |finished| && finished[i] in adjacency && b in adjacency[finished[i]] ==>
      b in finished[..i]
  }

  ghost predicate Chain(adjacency: Adjacency, stack: seq<string>) {
    && (forall i :: 0 <= i < |stack| - 1 ==> stack[i] in adjacency && stack[i + 1] in adjacency[stack[i]])
    && (forall i, j :: 0 <= i < j < |stack| ==> stack[i] != stack[j])
  }

  ghost predicate Extends(adjacency: Adjacency, stack: seq<string>, node: string) {
    stack == [] || (stack[|stack| - 1] in adjacency && node in adjacency[stack[|stack| - 1]])
  }

  function Neighbours(adjacency: Adjacency, node: string): set<string> {
    if node in adjacency then adjacency[node] else {}
  }

  function Members(s: seq<string>): set<string> {
    set a | a in s
  }

  ghost function Nodes(adjacency: Adjacency): set<string> {
    adjacency.Keys + set a, b | a in adjacency && b in adjacency[a] :: b
  }

  /** The two sets the nested function `visit` shares with its caller. `stack` lists the open calls
      and `finished` the visited nodes in the order they were left. */
  class Visitor {
    const adjacency: Adjacency
    var visiting: set<string>
    var visited: set<string>
    ghost var stack: seq<string>
    ghost var finished: seq<string>

    ghost predicate Valid()
      reads this
    {
      && Chain(adjacency, stack)
      && visiting == Members(stack)
      && visiting <= Nodes(adjacency)
      && visited == Members(finished)
      && Topological(adjacency, finished)
    }

    constructor (adjacency: Adjacency)
      ensures Valid() && visiting == visited == {} && stack == [] && this.adjacency == adjacency
    {
      this.adjacency := adjacency;
      visiting, visited, stack, finished := {}, {}, [], [];
    }

    /** `visit`; `ok` is false where it raises GraphCycleError. */
    method Visit(node: string, ghost edges: seq<GraphEdge>) returns (ok: bool)
      requires Valid() && node in Nodes(adjacency) && AdjacencyOf(adjacency, edges)
      requires Extends(adjacency, stack, node)
      modifies this
      ensures ok ==> Valid() && visiting == old(visiting) && stack == old(stack)
      ensures ok ==> old(visited) <= visited && node in visited
      ensures !ok ==> HasCycle(edges)
      decreases Nodes(adjacency) - visiting, 0
    {
      if node in visiting {
        ClosesCycle(adjacency, edges, stack, node);
        return false;
      }
      if node in visited {
        return true;
      }
      Enters(adjacency, stack, node);
      visiting := visiting + {node};
      stack := stack + [node];
      ok := VisitTargets(node, edges);
      if !ok {
        return false;
      }
      Leaves(adjacency, stack, finished, node);
      visiting := visiting - {node};
      visited := visited + {node};
      stack := stack[..|stack| - 1];
      finished := finished + [node];
      return true;
    }

    /** The loop of `visit` over a node's targets. */
    method VisitTargets(node: string, ghost edges: seq<GraphEdge>) returns (ok: bool)
      requires Valid() && stack != [] && stack[|stack| - 1] == node && AdjacencyOf(adjacency, edges)
      modifies this
      ensures ok ==> Valid() && visiting == old(visiting) && stack == old(stack)
      ensures ok ==> old(visited) <= visited && Neighbours(adjacency, node) <= visited
      ensures !ok ==> HasCycle(edges)
      decreases Nodes(adjacency) - visiting, 1
    {
      var todo := Neighbours(adjacency, node);
      while todo != {}
        invariant Valid() && visiting == old(visiting) && stack == old(stack) && old(visited) <= visited
        invariant todo <= Neighbours(adjacency, node) && Neighbours(adjacency, node) - todo <= visited
        decreases |todo|
      {
        var target :| target in todo;
        todo := todo - {target};
        ok := Visit(target, edges);
        if !ok {
          return false;
        }
      }
      return true;
    }
  }

  lemma Enters(adjacency: Adjacency, stack: seq<string>, node: string)
    requires Chain(adjacency, stack) && Extends(adjacency, stack, node) && node !in stack
    ensures Chain(adjacency, stack + [node])
    ensures Members(stack + [node]) == Members(stack) + {node}
  {
  }

  lemma Leaves(adjacency: Adjacency, stack: seq<string>, finished: seq<string>, node: string)
    requires Chain(adjacency, stack) && stack != [] && stack[|stack| - 1] == node
    requires Topological(adjacency, finished)
    requires forall b :: b in Neighbours(adjacency, node) ==> b in finished
    ensures Chain(adjacency, stack[..|stack| - 1])
    ensures Members(stack[..|stack| - 1]) == Members(stack) - {node}
    ensures Topological(adjacency, finished + [node])
    ensures Members(finished + [node]) == Members(finished) + {node}
  {
    var longer := finished + [node];
    forall i, b | 0 <= i < |longer| && longer[i] in adjacency && b in adjacency[longer[i]]
      ensures b in longer[..i]
    {
      if i < |finished| {
        assert longer[..i] == finished[..i];
      } else {
        assert longer[..i] == finished;
      }
    }
    var rest := stack[..|stack| - 1];
    assert stack == rest + [node];
  }

  /** A node met again while its visit is still open closes a cycle. */
  lemma ClosesCycle(adjacency: Adjacency, edges: seq<GraphEdge>, stack: seq<string>, node: string)
    requires Chain(adjacency, stack) && AdjacencyOf(adjacency, edges)
    requires Extends(adjacency, stack, node) && node in stack
    ensures HasCycle(edges)
  {
    var i :| 0 <= i < |stack| && stack[i] == node;
    var p := stack[i..] + [node];
    forall j | 0 <= j < |p| - 1 ensures Inherits(edges, p[j], p[j + 1]) {
      if j < |p| - 2 {
        assert p[j] == stack[i + j] && p[j + 1] == stack[i + j + 1];
      }
    }
    assert p[0] == node && p[|p| - 1] == node;
    assert Closed(edges, p);
  }

  /** `ensure_valid_graph`: true where it returns, false where it raises GraphCycleError. */
  method EnsureValidGraph(edges: seq<GraphEdge>) returns (ok: bool)
    ensures ok <==> !HasCycle(edges)
  {
    var adjacency := BuildAdjacency(edges);
    var visitor := new Visitor(adjacency);
    var todo := adjacency.Keys;
    while todo != {}
      invariant fresh(visitor) && visitor.Valid() && visitor.stack == [] && visitor.adjacency == adjacency
      invariant todo <= adjacency.Keys && adjacency.Keys - todo <= visitor.visited
      decreases |todo|
    {
      var node :| node in todo;
      todo := todo - {node};
      var visited := visitor.Visit(node, edges);
      if !visited {
        return false;
      }
    }
    if HasCycle(edges) {
      var p :| Closed(edges, p);
      assert forall a :: a in adjacency ==> a in visitor.visited;
      OrderedMeansAcyclic(adjacency, edges, visitor.finished, p);
    }
    return true;
  }

  /** No walk along a topological order comes back to where it started. */
  lemma OrderedMeansAcyclic(adjacency: Adjacency, edges: seq<GraphEdge>, finished: seq<string>, p: seq<string>)
    requires AdjacencyOf(adjacency, edges) && Topological(adjacency, finished)
    requires forall a :: a in adjacency ==> a in finished
    ensures !Closed(edges, p)
  {
    if Closed(edges, p) {
      assert Inherits(edges, p[0], p[1]);
      var k :| 0 <= k < |finished| && finished[k] == p[0];
      var first := FirstAt(finished, k);
      WalksDown(adjacency, edges, finished, p, first, |p| - 1);
    }
  }

  lemma FirstAt(s: seq<string>, k: nat) returns (first: nat)
    requires k < |s|
    ensures first <= k && s[first] == s[k] && s[k] !in s[..first]
  {
    first := 0;
    while s[first] != s[k]
      invariant first <= k && s[k] !in s[..first]
      decreases k - first
    {
      first := first + 1;
    }
  }

  /** After `n >= 1` edges a walk stands strictly before the first place of its start. */
  lemma {:induction false} WalksDown(
    adjacency: Adjacency, edges: seq<GraphEdge>, finished: seq<string>, p: seq<string>, first: nat, n: nat)
    requires AdjacencyOf(adjacency, edges) && Topological(adjacency, finished) && Walk(edges, p)
    requires first < |finished| && finished[first] == p[0] && 1 <= n < |p|
    ensures p[n] in finished[..first]
  {
    assert Inherits(edges, p[n - 1], p[n]);
    if n == 1 {
      assert p[1] in adjacency[finished[first]];
    } else {
      WalksDown(adjacency, edges, finished, p, first, n - 1);
      var i :| 0 <= i < first && finished[i] == p[n - 1];
      assert p[n] in adjacency[finished[i]];
      assert p[n] in finished[..i];
    }
  }

  // ---------------------------------------------------------------- one more edge

  /** Relations of other types never matter. */
  lemma OtherTypesAreIgnored(edges: seq<GraphEdge>, e: GraphEdge)
    requires e.relationType !in ACYCLIC_RELATION_TYPES
    ensures HasCycle(edges + [e]) <==> HasCycle(edges)
  {
    InheritsAppend(edges, e);
    if HasCycle(edges + [e]) {
      var p :| Closed(edges + [e], p);
      assert Closed(edges, p);
    }
    if HasCycle(edges) {
      var p :| Closed(edges, p);
      assert Closed(edges + [e], p);
    }
  }

  /** An inheritance edge is refused exactly when its target already inherits from its source. */
  lemma RefusedIffItClosesACycle(edges: seq<GraphEdge>, e: GraphEdge)
    requires !HasCycle(edges) && e.relationType in ACYCLIC_RELATION_TYPES
    ensures HasCycle(edges + [e]) <==> Reaches(edges, e.target, e.source)
  {
    InheritsAppend(edges, e);
    if HasCycle(edges + [e]) {
      var p :| Closed(edges + [e], p);
      assert !Closed(edges, p);
      var i :| 0 <= i < |p| - 1 && !Inherits(edges, p[i], p[i + 1]);
      assert Inherits(edges + [e], p[i], p[i + 1]);
      var q := p[i + 1..] + p[1..i + 1];
      Rotated(edges + [e], p, i);
      DropsTheEdge(edges, e, q);
    }
    if Reaches(edges, e.target, e.source) {
      var p :| WalkBetween(edges, p, e.target, e.source);
      assert Closed(edges + [e], p + [e.target]);
    }
  }

  lemma Rotated(edges: seq<GraphEdge>, p: seq<string>, i: nat)
    requires Closed(edges, p) && i < |p| - 1
    ensures WalkBetween(edges, p[i + 1..] + p[1..i + 1], p[i + 1], p[i])
  {
    var q := p[i + 1..] + p[1..i + 1];
    var n := |p| - i - 1;
    forall j | 0 <= j < |q| - 1 ensures Inherits(edges, q[j], q[j + 1]) {
      if j < n - 1 {
        assert q[j] == p[i + 1 + j] && q[j + 1] == p[i + 2 + j];
      } else if j == n - 1 {
        assert q[j] == p[0] && q[j + 1] == p[1];
      } else {
        assert q[j] == p[j - n + 1] && q[j + 1] == p[j - n + 2];
      }
    }
    if i == 0 {
      assert q[|q| - 1] == p[|p| - 1];
    } else {
      assert q[|q| - 1] == p[i];
    }
  }

  /** A walk from the new edge's target to its source need not use the new edge. */
  lemma {:induction false} DropsTheEdge(edges: seq<GraphEdge>, e: GraphEdge, q: seq<string>)
    requires WalkBetween(edges + [e], q, e.target, e.source)
    ensures Reaches(edges, e.target, e.source)
    decreases |q|
  {
    InheritsAppend(edges, e);
    if Walk(edges, q) {
      assert WalkBetween(edges, q, e.target, e.source);
    } else {
      var i :| 0 <= i < |q| - 1 && !Inherits(edges, q[i], q[i + 1]);
      assert Inherits(edges + [e], q[i], q[i + 1]);
      var rest := q[i + 1..];
      forall j | 0 <= j < |rest| - 1 ensures Inherits(edges + [e], rest[j], rest[j + 1]) {
        assert rest[j] == q[i + 1 + j] && rest[j + 1] == q[i + 2 + j];
      }
      DropsTheEdge(edges, e, rest);
    }
  }

  // ---------------------------------------------------------------- any serial sequence of inserts

  ghost function Offer(edges: seq<GraphEdge>, e: GraphEdge): seq<GraphEdge> {
    if HasCycle(edges + [e]) then edges else edges + [e]
  }

  ghost function AfterAll(offers: seq<GraphEdge>): seq<GraphEdge> {
    if offers == [] then [] else Offer(AfterAll(offers[..|offers| - 1]), offers[|offers| - 1])
  }

  /** Whatever is offered in whatever order, the stored graph is acyclic and nothing was refused
      that it could still take: a refused edge closes a cycle in the final graph too. */
  lemma {:induction false} StoredGraphIsAcyclicAndMaximal(offers: seq<GraphEdge>)
    ensures !HasCycle(AfterAll(offers))
    ensures forall e :: e in offers && e !in AfterAll(offers) ==>
              e.relationType in ACYCLIC_RELATION_TYPES && Reaches(AfterAll(offers), e.target, e.source)
  {
    if offers == [] {
      NoEdgesNoCycle();
    } else {
      var earlier, last := offers[..|offers| - 1], offers[|offers| - 1];
      StoredGraphIsAcyclicAndMaximal(earlier);
      var before, after := AfterAll(earlier), AfterAll(offers);
      if last !in after {
        if last.relationType !in ACYCLIC_RELATION_TYPES {
          OtherTypesAreIgnored(before, last);
          assert false;
        }
        RefusedIffItClosesACycle(before, last);
      }
      forall e | e in earlier && e !in after ensures Reaches(after, e.target, e.source) {
        assert e !in before;
        ReachesGrows(before, after, e.target, e.source);
      }
    }
  }

  lemma ReachesGrows(before: seq<GraphEdge>, after: seq<GraphEdge>, a: string, b: string)
    requires before <= after && Reaches(before, a, b)
    ensures Reaches(after, a, b)
  {
    var p :| WalkBetween(before, p, a, b);
    SubsetKeepsEdges(before, after);
    assert WalkBetween(after, p, a, b);
  }

  // ---------------------------------------------------------------- the stored graph

  lemma NoEdgesNoCycle()
    ensures !HasCycle([])
  {
    forall p ensures !Closed([], p) {
      assert |p| >= 2 ==> !Inherits([], p[0], p[1]);
    }
  }

  /** The joined rows of RelationshipAssertion and RelationshipRevision. */
  class RelationshipStore {
    var edges: seq<GraphEdge>

    constructor ()
      ensures edges == [] && !HasCycle(edges)
    {
      edges := [];
      NoEdgesNoCycle();
    }

    /** `add_relationship`: checks every stored edge with the new one, then inserts it. */
    method AddRelationship(e: GraphEdge) returns (ok: bool)
      modifies this
      ensures ok <==> !HasCycle(old(edges) + [e])
      ensures edges == Offer(old(edges), e)
      ensures !old(HasCycle(edges)) ==> !HasCycle(edges)
    {
      ok := EnsureValidGraph(edges + [e]);
      if ok {
        edges := edges + [e];
      }
    }

    /** The relationship loop of `_integrate`: each edge is checked together with the stored edges
        and the batch so far; a cycle rolls the whole batch back. */
    method IntegrateRelationships(batch: seq<GraphEdge>, known: set<GraphEdge>) returns (ok: bool)
      requires forall e :: e in known ==> e in edges
      modifies this
      ensures ok <==> forall n :: 0 < n <= |batch| ==> !HasCycle(old(edges) + batch[..n])
      ensures !ok ==> edges == old(edges)
      ensures ok ==> forall e :: e in edges <==> e in old(edges) || e in batch
      ensures !old(HasCycle(edges)) ==> !HasCycle(edges)
    {
      var before := edges;
      var relationshipEdges: seq<GraphEdge> := [];
      var stored := known;
      for i := 0 to |batch|
        invariant relationshipEdges == batch[..i]
        invariant forall e :: e in stored ==> e in edges
        invariant SameEdges(edges, before + batch[..i])
        invariant forall n :: 0 < n <= i ==> !HasCycle(before + batch[..n])
      {
        relationshipEdges := relationshipEdges + [batch[i]];
        assert SameEdges(edges + relationshipEdges, before + batch[..i + 1]);
        SameEdgesSameCycles(edges + relationshipEdges, before + batch[..i + 1]);
        var valid := EnsureValidGraph(edges + relationshipEdges);
        if !valid {
          edges := before;
          return false;
        }
        if batch[i] !in stored {
          edges := edges + [batch[i]];
          stored := stored + {batch[i]};
        }
      }
      assert batch[..|batch|] == batch;
      SameEdgesSameCycles(edges, before + batch);
      assert batch == [] ==> before + batch == before;
      return true;
    }
  }

  ghost predicate SameEdges(a: seq<GraphEdge>, b: seq<GraphEdge>) {
    forall e :: e in a <==> e in b
  }

  lemma SameEdgesSameCycles(a: seq<GraphEdge>, b: seq<GraphEdge>)
    requires SameEdges(a, b)
    ensures HasCycle(a) <==> HasCycle(b)
  {
    SubsetKeepsCycles(a, b);
    SubsetKeepsCycles(b, a);
  }

  lemma SubsetKeepsEdges(a: seq<GraphEdge>, b: seq<GraphEdge>)
    requires forall e :: e in a ==> e in b
    ensures forall x, y :: Inherits(a, x, y) ==> Inherits(b, x, y)
  {
    forall x, y | Inherits(a, x, y) ensures Inherits(b, x, y) {
      var i :| 0 <= i < |a| && a[i].relationType in ACYCLIC_RELATION_TYPES && a[i].source == x && a[i].target == y;
      assert a[i] in b;
    }
  }

  lemma SubsetKeepsCycles(a: seq<GraphEdge>, b: seq<GraphEdge>)
    requires forall e :: e in a ==> e in b
    ensures HasCycle(a) ==> HasCycle(b)
  {
    SubsetKeepsEdges(a, b);
    if HasCycle(a) {
      var p :| Closed(a, p);
      assert Closed(b, p);
    }
  }
}
