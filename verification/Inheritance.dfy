/** `effective_knowledge` (backend/app/v2/projections.py): fields flow from parents to children by
    relaxing every active inheritance edge, at most once around per node. */
module Inheritance {
  import opened Collections
  import opened Domain
  import opened Ordering

  type NodeId = string
  type Json = string
  type Fields = map<string, Json>

  /** `origins` names, for each field, the node whose own revision supplied it. */
  datatype Node = Node(fields: Fields, origins: map<string, NodeId>)

  type Nodes = map<NodeId, Node>

  datatype Edge = Edge(
    source: NodeId, target: NodeId, continuity: Option<string>, validFrom: Option<string>, validTo: Option<string>)

  datatype Query = Query(continuity: Option<string>, timepoint: Option<string>)

  // ---------------------------------------------------------------- active edges

  predicate Given(text: Option<string>) {
    text.Some? && text.value != ""
  }

  predicate Active(edge: Edge, query: Query) {
    && (Given(query.continuity) ==> edge.continuity == query.continuity)
    && (Given(query.timepoint) ==>
          && (Given(edge.validFrom) ==> !Before(query.timepoint.value, edge.validFrom.value))
          && (Given(edge.validTo) ==> !Before(edge.validTo.value, query.timepoint.value)))
  }

  /** An edge counts for a query when it belongs to the continuity asked for, if one is, and the timepoint
      asked for, if one is, is not before its start nor after its end. */
  lemma ActiveMeans(edge: Edge, query: Query)
    ensures Active(edge, query)
            <==> && (query.continuity == None || query.continuity == Some("") || edge.continuity == query.continuity)
                 && (query.timepoint == None || query.timepoint == Some("")
                     || ((edge.validFrom == None || edge.validFrom == Some("")
                          || TextLe(edge.validFrom.value, query.timepoint.value))
                         && (edge.validTo == None || edge.validTo == Some("")
                             || TextLe(query.timepoint.value, edge.validTo.value))))
  {
  }

  /** The query that built `nodes` keeps only edges between its nodes. */
  predicate Inside(nodes: Nodes, edges: seq<Edge>) {
    forall i :: 0 <= i < |edges| ==> edges[i].source in nodes && edges[i].target in nodes
  }

  predicate Parent(edges: seq<Edge>, query: Query, child: NodeId, parent: NodeId) {
    exists i :: 0 <= i < |edges| && Active(edges[i], query) && edges[i].source == child && edges[i].target == parent
  }

  predicate Ancestry(edges: seq<Edge>, query: Query, p: seq<NodeId>) {
    p != [] && forall i :: 0 <= i < |p| - 1 ==> Parent(edges, query, p[i], p[i + 1])
  }

  predicate Leads(edges: seq<Edge>, query: Query, p: seq<NodeId>, from: NodeId, to: NodeId) {
    Ancestry(edges, query, p) && p[0] == from && p[|p| - 1] == to
  }

  // ---------------------------------------------------------------- where a value comes from

  /** What `accepted_graph` returns: each field originates in its own node. */
  ghost predicate OwnFields(own: Nodes) {
    forall n :: n in own ==>
      forall f :: (f in own[n].fields <==> f in own[n].origins) && (f in own[n].origins ==> own[n].origins[f] == n)
  }

  /** A line of ancestors from `n` to the first one, `o`, that has a field `f` of its own. */
  predicate NearestOwner(own: Nodes, edges: seq<Edge>, query: Query, p: seq<NodeId>, n: NodeId, f: string, o: NodeId) {
    && Leads(edges, query, p, n, o)
    && o in own && f in own[o].fields
    && forall i :: 0 <= i < |p| - 1 ==> p[i] in own && f !in own[p[i]].fields
  }

  ghost predicate ComesFrom(own: Nodes, edges: seq<Edge>, query: Query, n: NodeId, f: string, o: NodeId) {
    exists p :: NearestOwner(own, edges, query, p, n, f, o)
  }

  /** A node's own fields are as they were; every other value is the one its origin owns, and the
      origin is reached over ancestors that do not have the field themselves. */
  ghost predicate SoundNode(own: Nodes, edges: seq<Edge>, query: Query, n: NodeId, node: Node)
    requires n in own
  {
    && (forall f :: f in node.fields <==> f in node.origins)
    && Covers(node.fields, own[n].fields)
    && forall f :: f in node.fields ==> SoundValue(own, edges, query, n, f, node.fields[f], node.origins[f])
  }

  ghost predicate SoundValue(
    own: Nodes, edges: seq<Edge>, query: Query, n: NodeId, f: string, value: Json, origin: NodeId)
  {
    && ComesFrom(own, edges, query, n, f, origin)
    && origin in own && f in own[origin].fields && value == own[origin].fields[f]
  }

  ghost predicate Sound(own: Nodes, edges: seq<Edge>, query: Query, nodes: Nodes) {
    SameNodes(nodes, own) && forall n :: n in nodes ==> SoundNode(own, edges, query, n, nodes[n])
  }

  // ---------------------------------------------------------------- what has arrived

  /** Every field owned by an ancestor at most `k` edges away has arrived. */
  ghost predicate Within(own: Nodes, edges: seq<Edge>, query: Query, nodes: Nodes, k: nat) {
    SameNodes(nodes, own)
    && forall p :: Ancestry(edges, query, p) && |p| <= k + 1 && p[0] in own && p[|p| - 1] in own ==>
         Covers(nodes[p[0]].fields, own[p[|p| - 1]].fields)
  }

  ghost predicate Complete(own: Nodes, edges: seq<Edge>, query: Query, nodes: Nodes) {
    SameNodes(nodes, own)
    && forall p :: Ancestry(edges, query, p) && p[0] in own && p[|p| - 1] in own ==>
         Covers(nodes[p[0]].fields, own[p[|p| - 1]].fields)
  }

  predicate Covers(more: Fields, fewer: Fields) {
    forall f :: f in fewer ==> f in more
  }

  /** The source's test for a change: an inherited dictionary that equals the child's own. */
  lemma CoveredIffEqual(parent: Fields, child: Fields)
    ensures parent + child == child <==> Covers(child, parent)
  {
    if parent + child == child {
      assert forall f :: f in parent ==> f in parent + child;
    }
  }

  ghost predicate SameNodes(a: Nodes, b: Nodes) {
    forall n :: n in a <==> n in b
  }

  ghost predicate Grown(before: Nodes, after: Nodes) {
    SameNodes(before, after) && forall n :: n in before ==> Covers(after[n].fields, before[n].fields)
  }

  /** The parents' fields at the start of a pass have reached the children of the first `j` edges. */
  ghost predicate Relaxed(edges: seq<Edge>, query: Query, start: Nodes, nodes: Nodes, j: nat)
    requires j <= |edges| && SameNodes(start, nodes) && Inside(start, edges)
  {
    forall i :: 0 <= i < j && Active(edges[i], query) ==>
      Covers(nodes[edges[i].source].fields, start[edges[i].target].fields)
  }

  // ---------------------------------------------------------------- one pass

  function Inherit(child: Node, parent: Node): Node {
    Node(parent.fields + child.fields, parent.origins + child.origins)
  }

  /** One edge of a pass: if it is active, the child takes what it lacks. */
  function Moved(nodes: Nodes, edge: Edge, query: Query): (after: Nodes)
    requires edge.source in nodes && edge.target in nodes
    ensures SameNodes(after, nodes)
  {
    var child, parent := nodes[edge.source], nodes[edge.target];
    if !Active(edge, query) || parent.fields + child.fields == child.fields then nodes
    else nodes[edge.source := Inherit(child, parent)]
  }

  /** One pass over the edges, each seeing what the earlier ones changed. */
  method Pass(own: Nodes, start: Nodes, edges: seq<Edge>, query: Query) returns (nodes: Nodes, changed: bool)
    requires Inside(own, edges) && Sound(own, edges, query, start)
    ensures Sound(own, edges, query, nodes)
    ensures Grown(start, nodes) && Relaxed(edges, query, start, nodes, |edges|)
    ensures !changed ==> nodes == start
  {
    nodes := start;
    changed := false;
    for j := 0 to |edges|
      invariant Sound(own, edges, query, nodes)
      invariant Grown(start, nodes) && Relaxed(edges, query, start, nodes, j)
      invariant !changed ==> nodes == start
    {
      var edge := edges[j];
      MovesSoundly(own, edges, query, nodes, j);
      MovesForward(edges, query, start, nodes, j);
      ghost var after := Moved(nodes, edge, query);
      if Active(edge, query) {
        var child, parent := nodes[edge.source], nodes[edge.target];
        var inherited := parent.fields + child.fields;
        if inherited != child.fields {
          child := Node(inherited, parent.origins + child.origins);
          nodes := nodes[edge.source := child];
          changed := true;
        }
      }
      assert nodes == after;
    }
  }

  lemma MovesSoundly(own: Nodes, edges: seq<Edge>, query: Query, nodes: Nodes, j: nat)
    requires Sound(own, edges, query, nodes) && Inside(own, edges) && j < |edges|
    ensures Sound(own, edges, query, Moved(nodes, edges[j], query))
  {
    var n, m := edges[j].source, edges[j].target;
    if Active(edges[j], query) {
      assert Parent(edges, query, n, m);
      assert SoundNode(own, edges, query, n, nodes[n]) && SoundNode(own, edges, query, m, nodes[m]);
      InheritsSoundly(own, edges, query, n, m, nodes[n], nodes[m]);
    }
  }

  lemma MovesForward(edges: seq<Edge>, query: Query, start: Nodes, nodes: Nodes, j: nat)
    requires Inside(start, edges) && Grown(start, nodes) && j < |edges| && Relaxed(edges, query, start, nodes, j)
    ensures var after := Moved(nodes, edges[j], query);
      Grown(start, after) && Relaxed(edges, query, start, after, j + 1)
  {
    var child, parent := nodes[edges[j].source], nodes[edges[j].target];
    CoveredIffEqual(parent.fields, child.fields);
  }

  lemma InheritsSoundly(own: Nodes, edges: seq<Edge>, query: Query, n: NodeId, m: NodeId, child: Node, parent: Node)
    requires n in own && m in own && Parent(edges, query, n, m)
    requires SoundNode(own, edges, query, n, child) && SoundNode(own, edges, query, m, parent)
    ensures SoundNode(own, edges, query, n, Inherit(child, parent))
  {
    forall f | f in parent.fields && f !in child.fields
      ensures SoundValue(own, edges, query, n, f, parent.fields[f], parent.origins[f])
    {
      assert SoundValue(own, edges, query, m, f, parent.fields[f], parent.origins[f]);
      var p :| NearestOwner(own, edges, query, p, m, f, parent.origins[f]);
      OneGenerationMore(own, edges, query, p, n, m, f, parent.origins[f]);
    }
  }

  lemma OneGenerationMore(
    own: Nodes, edges: seq<Edge>, query: Query, p: seq<NodeId>, n: NodeId, m: NodeId, f: string, o: NodeId)
    requires n in own && f !in own[n].fields && Parent(edges, query, n, m)
    requires NearestOwner(own, edges, query, p, m, f, o)
    ensures NearestOwner(own, edges, query, [n] + p, n, f, o)
  {
    var q := [n] + p;
    forall i | 0 <= i < |q| - 1 ensures Parent(edges, query, q[i], q[i + 1]) {
      assert i > 0 ==> q[i] == p[i - 1] && q[i + 1] == p[i];
    }
    assert forall i :: 0 < i < |q| ==> q[i] == p[i - 1];
  }

  // ---------------------------------------------------------------- the loop over passes

  /** The relaxation loop: at most one pass per node. */
  method EffectiveKnowledge(own: Nodes, edges: seq<Edge>, query: Query) returns (nodes: Nodes)
    requires OwnFields(own) && Inside(own, edges)
    ensures Sound(own, edges, query, nodes)
    ensures Complete(own, edges, query, nodes)
  {
    nodes := own;
    StartsSound(own, edges, query);
    for pass := 0 to |own|
      invariant Sound(own, edges, query, nodes)
      invariant Within(own, edges, query, nodes, pass)
    {
      var start := nodes;
      var changed: bool;
      nodes, changed := Pass(own, start, edges, query);
      if !changed {
        QuietIsComplete(own, edges, query, nodes);
        return;
      }
      ReachesOneFurther(own, edges, query, start, nodes, pass);
    }
    EnoughPasses(own, edges, query, nodes);
  }

  lemma StartsSound(own: Nodes, edges: seq<Edge>, query: Query)
    requires OwnFields(own)
    ensures Sound(own, edges, query, own) && Within(own, edges, query, own, 0)
  {
    forall n, f | n in own && f in own[n].fields ensures ComesFrom(own, edges, query, n, f, n) {
      assert NearestOwner(own, edges, query, [n], n, f, n);
    }
  }

  lemma ReachesOneFurther(own: Nodes, edges: seq<Edge>, query: Query, start: Nodes, nodes: Nodes, k: nat)
    requires Inside(own, edges) && Within(own, edges, query, start, k)
    requires Grown(start, nodes) && Relaxed(edges, query, start, nodes, |edges|)
    ensures Within(own, edges, query, nodes, k + 1)
  {
    forall p | Ancestry(edges, query, p) && |p| <= k + 2 && p[0] in own && p[|p| - 1] in own
      ensures Covers(nodes[p[0]].fields, own[p[|p| - 1]].fields)
    {
      if |p| == k + 2 {
        assert Parent(edges, query, p[0], p[1]);
        Tail(edges, query, p);
        var rest := p[1..];
        assert Covers(start[rest[0]].fields, own[rest[|rest| - 1]].fields);
      } else {
        assert Covers(start[p[0]].fields, own[p[|p| - 1]].fields);
      }
    }
  }

  lemma Tail(edges: seq<Edge>, query: Query, p: seq<NodeId>)
    requires Ancestry(edges, query, p) && |p| >= 2
    ensures Ancestry(edges, query, p[1..])
  {
    var rest := p[1..];
    forall i | 0 <= i < |rest| - 1 ensures Parent(edges, query, rest[i], rest[i + 1]) {
      assert rest[i] == p[i + 1] && rest[i + 1] == p[i + 2];
    }
  }

  /** A pass without a change has nothing left to move along any line of ancestors. */
  lemma QuietIsComplete(own: Nodes, edges: seq<Edge>, query: Query, nodes: Nodes)
    requires Inside(own, edges) && Sound(own, edges, query, nodes)
    requires Relaxed(edges, query, nodes, nodes, |edges|)
    ensures Complete(own, edges, query, nodes)
  {
    forall p | Ancestry(edges, query, p) && p[0] in own && p[|p| - 1] in own
      ensures Covers(nodes[p[0]].fields, own[p[|p| - 1]].fields)
    {
      ClimbsDown(own, edges, query, nodes, p);
    }
  }

  lemma {:induction false} ClimbsDown(own: Nodes, edges: seq<Edge>, query: Query, nodes: Nodes, p: seq<NodeId>)
    requires Inside(own, edges) && Sound(own, edges, query, nodes)
    requires Relaxed(edges, query, nodes, nodes, |edges|)
    requires Ancestry(edges, query, p) && p[0] in own && p[|p| - 1] in own
    ensures Covers(nodes[p[0]].fields, own[p[|p| - 1]].fields)
  {
    if |p| > 1 {
      assert Parent(edges, query, p[0], p[1]);
      Tail(edges, query, p);
      ClimbsDown(own, edges, query, nodes, p[1..]);
    }
  }

  /** As many passes as nodes are enough: a line of ancestors that repeats a node can be cut. */
  lemma EnoughPasses(own: Nodes, edges: seq<Edge>, query: Query, nodes: Nodes)
    requires Inside(own, edges) && Within(own, edges, query, nodes, |own|)
    ensures Complete(own, edges, query, nodes)
  {
    forall p | Ancestry(edges, query, p) && p[0] in own && p[|p| - 1] in own
      ensures Covers(nodes[p[0]].fields, own[p[|p| - 1]].fields)
    {
      var q := Shortened(own, edges, query, p);
    }
  }

  lemma {:induction false} Shortened(own: Nodes, edges: seq<Edge>, query: Query, p: seq<NodeId>)
    returns (q: seq<NodeId>)
    requires Inside(own, edges) && Ancestry(edges, query, p) && p[0] in own
    ensures Leads(edges, query, q, p[0], p[|p| - 1]) && |q| <= |own|
    decreases |p|
  {
    if i, j :| 0 <= i < j < |p| && p[i] == p[j] {
      var cut := p[..i] + p[j..];
      assert |cut| == |p| - (j - i);
      forall k | 0 <= k < |cut| - 1 ensures Parent(edges, query, cut[k], cut[k + 1]) {
        if k < i {
          assert cut[k] == p[k] && cut[k + 1] == p[k + 1];
        } else {
          assert cut[k] == p[k + j - i] && cut[k + 1] == p[k + 1 + j - i];
        }
      }
      q := Shortened(own, edges, query, cut);
    } else {
      q := p;
      AllInside(own, edges, query, p);
      DistinctFit(p, own.Keys);
    }
  }

  lemma AllInside(own: Nodes, edges: seq<Edge>, query: Query, p: seq<NodeId>)
    requires Inside(own, edges) && Ancestry(edges, query, p) && p[0] in own
    ensures forall n :: n in p ==> n in own
  {
    forall i | 0 <= i < |p| ensures p[i] in own {
      assert i > 0 ==> Parent(edges, query, p[i - 1], p[i]);
    }
  }

  // ---------------------------------------------------------------- what the result means

  /** At exit a node's field names are exactly those owned by some node it inherits from, over any
      set of edges, cycles included. */
  lemma FieldNamesAreTheAncestors(own: Nodes, edges: seq<Edge>, query: Query, nodes: Nodes, n: NodeId, f: string)
    requires OwnFields(own) && Inside(own, edges) && n in own
    requires Sound(own, edges, query, nodes) && Complete(own, edges, query, nodes)
    ensures f in nodes[n].fields <==>
            exists p, o :: Leads(edges, query, p, n, o) && o in own && f in own[o].fields
  {
    if f in nodes[n].fields {
      var o := nodes[n].origins[f];
      var p :| NearestOwner(own, edges, query, p, n, f, o);
      assert Leads(edges, query, p, n, o);
    }
  }

  /** Own values are never overwritten. */
  lemma OwnValuesStay(own: Nodes, edges: seq<Edge>, query: Query, nodes: Nodes, n: NodeId, f: string)
    requires OwnFields(own) && Sound(own, edges, query, nodes) && n in own && f in own[n].fields
    ensures f in nodes[n].fields && nodes[n].fields[f] == own[n].fields[f] && nodes[n].origins[f] == n
  {
    OwnValueStays(own, edges, query, n, nodes[n], f);
  }

  lemma OwnValueStays(own: Nodes, edges: seq<Edge>, query: Query, n: NodeId, node: Node, f: string)
    requires n in own && SoundNode(own, edges, query, n, node) && f in own[n].fields
    ensures f in node.fields && node.fields[f] == own[n].fields[f] && node.origins[f] == n
  {
    var o := node.origins[f];
    var p :| NearestOwner(own, edges, query, p, n, f, o);
    assert p[0] == n;
  }

  ghost predicate SingleParents(edges: seq<Edge>, query: Query) {
    forall n, a, b :: Parent(edges, query, n, a) && Parent(edges, query, n, b) ==> a == b
  }

  /** With at most one parent per node the result is nearest-ancestor lookup. */
  lemma NearestAncestorWins(
    own: Nodes, edges: seq<Edge>, query: Query, nodes: Nodes, p: seq<NodeId>, n: NodeId, f: string, o: NodeId)
    requires OwnFields(own) && Inside(own, edges) && SingleParents(edges, query) && n in own
    requires Sound(own, edges, query, nodes) && Complete(own, edges, query, nodes)
    requires NearestOwner(own, edges, query, p, n, f, o)
    ensures f in nodes[n].fields && nodes[n].origins[f] == o && nodes[n].fields[f] == own[o].fields[f]
  {
    FieldNamesAreTheAncestors(own, edges, query, nodes, n, f);
    var q :| NearestOwner(own, edges, query, q, n, f, nodes[n].origins[f]);
    OneNearestOwner(own, edges, query, p, q, n, f, o, nodes[n].origins[f]);
  }

  lemma {:induction false} OneNearestOwner(
    own: Nodes, edges: seq<Edge>, query: Query, p: seq<NodeId>, q: seq<NodeId>, n: NodeId, f: string,
    o: NodeId, r: NodeId)
    requires SingleParents(edges, query)
    requires NearestOwner(own, edges, query, p, n, f, o) && NearestOwner(own, edges, query, q, n, f, r)
    ensures o == r
    decreases |p|
  {
    if |p| == 1 {
      assert q[0] == n;
    } else {
      assert f !in own[p[0]].fields;
      assert |q| > 1;
      assert Parent(edges, query, p[0], p[1]) && Parent(edges, query, q[0], q[1]);
      DropFirst(own, edges, query, p, n, f, o);
      DropFirst(own, edges, query, q, n, f, r);
      OneNearestOwner(own, edges, query, p[1..], q[1..], p[1], f, o, r);
    }
  }

  lemma DropFirst(own: Nodes, edges: seq<Edge>, query: Query, p: seq<NodeId>, n: NodeId, f: string, o: NodeId)
    requires NearestOwner(own, edges, query, p, n, f, o) && |p| > 1
    ensures NearestOwner(own, edges, query, p[1..], p[1], f, o)
  {
    Tail(edges, query, p);
  }

  /** An edge that is not active leads nowhere: with or without it the same nodes inherit from the same. */
  lemma InactiveEdgesChangeNothing(edges: seq<Edge>, edge: Edge, query: Query, p: seq<NodeId>, n: NodeId, o: NodeId)
    requires !Active(edge, query)
    ensures Leads(edges + [edge], query, p, n, o) <==> Leads(edges, query, p, n, o)
  {
    forall a, b ensures Parent(edges + [edge], query, a, b) <==> Parent(edges, query, a, b) {
      if Parent(edges, query, a, b) {
        var i :| 0 <= i < |edges| && Active(edges[i], query) && edges[i].source == a && edges[i].target == b;
        assert (edges + [edge])[i] == edges[i];
      }
    }
  }

  lemma FewerInside(own: Nodes, edges: seq<Edge>, edge: Edge)
    requires Inside(own, edges + [edge])
    ensures Inside(own, edges)
  {
    assert forall i :: 0 <= i < |edges| ==> (edges + [edge])[i] == edges[i];
  }

  lemma SameAncestors(own: Nodes, edges: seq<Edge>, edge: Edge, query: Query, n: NodeId, f: string)
    requires !Active(edge, query)
    ensures (exists p, o :: Leads(edges, query, p, n, o) && o in own && f in own[o].fields)
            <==> exists p, o :: Leads(edges + [edge], query, p, n, o) && o in own && f in own[o].fields
  {
    if p, o :| Leads(edges, query, p, n, o) && o in own && f in own[o].fields {
      InactiveEdgesChangeNothing(edges, edge, query, p, n, o);
    }
    if p, o :| Leads(edges + [edge], query, p, n, o) && o in own && f in own[o].fields {
      InactiveEdgesChangeNothing(edges, edge, query, p, n, o);
    }
  }

  /** So what a node ends up with is the same, whatever inactive edges are stored. */
  lemma InactiveEdgesGiveNothing(
    own: Nodes, edges: seq<Edge>, edge: Edge, query: Query, nodes: Nodes, others: Nodes, n: NodeId, f: string)
    requires OwnFields(own) && Inside(own, edges + [edge]) && n in own && !Active(edge, query)
    requires Sound(own, edges, query, nodes) && Complete(own, edges, query, nodes)
    requires Sound(own, edges + [edge], query, others) && Complete(own, edges + [edge], query, others)
    ensures f in nodes[n].fields <==> f in others[n].fields
  {
    FewerInside(own, edges, edge);
    FieldNamesAreTheAncestors(own, edges, query, nodes, n, f);
    FieldNamesAreTheAncestors(own, edges + [edge], query, others, n, f);
    SameAncestors(own, edges, edge, query, n, f);
  }
}
