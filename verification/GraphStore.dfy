/**
 One workspace of the external graph. A document's graph is replaced and deleted as a whole; nodes are
 merged by document and id, relationships by their ends and type, and the last evidence is kept.
 */
module GraphStore {
  import opened Wrappers
  import opened Sequences
  import opened Projection

  datatype Node = Node(document: string, id: string)

  datatype EdgeKey = EdgeKey(source: Node, kind: string, target: Node)

  datatype Graph = Graph(nodes: set<Node>, edges: map<EdgeKey, string>)

  datatype Triple = Triple(source: string, kind: string, target: string)

  /** What is to be stored for a document: the ids of its nodes, and its relationships. */
  datatype Content = Content(ids: set<string>, edges: seq<Edge>)

  function TripleOf(e: Edge): Triple {
    Triple(e.source, e.kind, e.target)
  }

  predicate Connected(ids: set<string>, e: Edge) {
    e.source in ids && e.target in ids
  }

  /** The evidence of every connected triple: that of the last relationship of the triple. */
  function EdgeMap(ids: set<string>, edges: seq<Edge>): map<Triple, string> {
    if edges == [] then map[]
    else
      var last := edges[|edges| - 1];
      var m := EdgeMap(ids, edges[..|edges| - 1]);
      if Connected(ids, last) then m[TripleOf(last) := last.evidence] else m
  }

  function KeyIn(document: string, t: Triple): EdgeKey {
    EdgeKey(Node(document, t.source), t.kind, Node(document, t.target))
  }

  predicate Touches(document: string, k: EdgeKey) {
    k.source.document == document || k.target.document == document
  }

  predicate Inside(document: string, k: EdgeKey) {
    k.source.document == document && k.target.document == document
  }

  function TripleIn(k: EdgeKey): Triple {
    Triple(k.source.id, k.kind, k.target.id)
  }

  function NodesOf(document: string, ids: set<string>): (nodes: set<Node>)
    ensures forall n :: n in nodes <==> n.document == document && n.id in ids
  {
    set id | id in ids :: Node(document, id)
  }

  function EdgesOf(document: string, triples: map<Triple, string>): (edges: map<EdgeKey, string>)
    ensures forall k :: k in edges <==> Inside(document, k) && TripleIn(k) in triples
    ensures forall k :: k in edges ==> edges[k] == triples[TripleIn(k)]
  {
    var keys := set t | t in triples :: KeyIn(document, t);
    InsideKeys(document, triples, keys);
    map k | k in keys :: triples[TripleIn(k)]
  }

  lemma InsideKeys(document: string, triples: map<Triple, string>, keys: set<EdgeKey>)
    requires keys == set t | t in triples :: KeyIn(document, t)
    ensures forall k :: k in keys <==> Inside(document, k) && TripleIn(k) in triples
  {
    forall k | Inside(document, k)
      ensures k == KeyIn(document, TripleIn(k))
    {
    }
  }

  /** The graph without a document: its nodes are gone, and every relationship that touched one. */
  function Detached(g: Graph, document: string): Graph {
    Graph(set n | n in g.nodes && n.document != document,
          map k | k in g.edges && !Touches(document, k) :: g.edges[k])
  }

  /** The graph with the content of a document in place of what it had. */
  function Replaced(g: Graph, document: string, c: Content): Graph {
    var rest := Detached(g, document);
    Graph(rest.nodes + NodesOf(document, c.ids), rest.edges + EdgesOf(document, EdgeMap(c.ids, c.edges)))
  }

  // ----- sequences of calls

  datatype Call = Replace(document: string, content: Content) | Delete(document: string)

  function After(g: Graph, calls: seq<Call>): Graph {
    if calls == [] then g
    else
      var before := After(g, calls[..|calls| - 1]);
      match calls[|calls| - 1]
      case Replace(document, content) => Replaced(before, document, content)
      case Delete(document) => Detached(before, document)
  }

  /** What was last written for a document, unless it was deleted after that or never written. */
  function LastWritten(calls: seq<Call>, document: string): Option<Content> {
    if calls == [] then None
    else
      var last := calls[|calls| - 1];
      if last.document != document then LastWritten(calls[..|calls| - 1], document)
      else if last.Replace? then Some(last.content) else None
  }

  /** The graph is the disjoint union of what was last written for each document: a node is there exactly
      when its document has it, a relationship exactly when both its ends are in one document and that
      document has it, with the evidence written last. */
  ghost predicate IsUnion(g: Graph, calls: seq<Call>) {
    && (forall n :: n in g.nodes <==>
          LastWritten(calls, n.document).Some? && n.id in LastWritten(calls, n.document).value.ids)
    && (forall k :: k in g.edges <==> InUnion(calls, k))
    && (forall k :: k in g.edges && InUnion(calls, k) ==> g.edges[k] == Evidence(calls, k))
  }

  predicate InUnion(calls: seq<Call>, k: EdgeKey) {
    && Inside(k.source.document, k)
    && var c := LastWritten(calls, k.source.document);
       c.Some? && TripleIn(k) in EdgeMap(c.value.ids, c.value.edges)
  }

  function Evidence(calls: seq<Call>, k: EdgeKey): string
    requires InUnion(calls, k)
  {
    var c := LastWritten(calls, k.source.document).value;
    EdgeMap(c.ids, c.edges)[TripleIn(k)]
  }

  lemma {:induction false} UnionNode(calls: seq<Call>, n: Node)
    ensures n in After(Graph({}, map[]), calls).nodes <==>
              LastWritten(calls, n.document).Some? && n.id in LastWritten(calls, n.document).value.ids
    decreases |calls|
  {
    hide EdgeMap, EdgesOf, NodesOf;
    if calls != [] {
      UnionNode(calls[..|calls| - 1], n);
    }
  }

  lemma {:induction false} UnionEdge(calls: seq<Call>, k: EdgeKey)
    ensures k in After(Graph({}, map[]), calls).edges <==> InUnion(calls, k)
    ensures InUnion(calls, k) ==> After(Graph({}, map[]), calls).edges[k] == Evidence(calls, k)
    decreases |calls|
  {
    hide EdgeMap, EdgesOf, NodesOf;
    if calls != [] {
      var init, last := calls[..|calls| - 1], calls[|calls| - 1];
      UnionEdge(init, k);
      if last.document != k.source.document {
        assert InUnion(calls, k) <==> InUnion(init, k);
      }
    }
  }

  /** Over every sequence of calls the graph is the union of what was last written. */
  lemma CallsRefineUnion(calls: seq<Call>)
    ensures IsUnion(After(Graph({}, map[]), calls), calls)
  {
    hide After, InUnion, Evidence, LastWritten;
    forall n
      ensures n in After(Graph({}, map[]), calls).nodes <==>
                LastWritten(calls, n.document).Some? && n.id in LastWritten(calls, n.document).value.ids
    {
      UnionNode(calls, n);
    }
    forall k
      ensures k in After(Graph({}, map[]), calls).edges <==> InUnion(calls, k)
      ensures InUnion(calls, k) ==> After(Graph({}, map[]), calls).edges[k] == Evidence(calls, k)
    {
      UnionEdge(calls, k);
    }
  }

  /** A call leaves the other documents alone. */
  lemma OtherDocumentsUntouched(g: Graph, call: Call, n: Node, k: EdgeKey)
    requires n.document != call.document && !Touches(call.document, k)
    ensures var h := After(g, [call]);
            && (n in h.nodes <==> n in g.nodes)
            && (k in h.edges <==> k in g.edges)
            && (k in g.edges ==> h.edges[k] == g.edges[k])
  {
    hide EdgeMap, EdgesOf, NodesOf;
    assert [call][..0] == [];
  }

  /** Replacing a document by the same content again changes nothing, whatever was there before. */
  lemma ReplaceTwice(g: Graph, document: string, c: Content)
    ensures Replaced(Replaced(g, document, c), document, c) == Replaced(g, document, c)
  {
    hide EdgeMap, EdgesOf, NodesOf;
    var once := Replaced(g, document, c);
    assert Detached(once, document).nodes == Detached(g, document).nodes;
    assert Detached(once, document).edges == Detached(g, document).edges;
  }

  /** Deleting after replacing leaves what deleting alone leaves. */
  lemma DeleteUndoesReplace(g: Graph, document: string, c: Content)
    ensures Detached(Replaced(g, document, c), document) == Detached(g, document)
  {
    hide EdgeMap, EdgesOf, NodesOf;
    assert Detached(Replaced(g, document, c), document).nodes == Detached(g, document).nodes;
    assert Detached(Replaced(g, document, c), document).edges == Detached(g, document).edges;
  }

  // ----- what the evidence map holds

  lemma {:induction false} EdgeMapKeys(ids: set<string>, edges: seq<Edge>, t: Triple)
    ensures t in EdgeMap(ids, edges) <==>
              exists i :: 0 <= i < |edges| && Connected(ids, edges[i]) && TripleOf(edges[i]) == t
    decreases |edges|
  {
    hide Connected, TripleOf;
    if edges != [] {
      EdgeMapKeys(ids, edges[..|edges| - 1], t);
    }
  }

  /** The evidence of a triple is that of its last relationship. */
  lemma {:induction false} LastEvidenceCounts(ids: set<string>, edges: seq<Edge>, i: nat)
    requires i < |edges| && Connected(ids, edges[i])
    requires forall j :: i < j < |edges| ==> TripleOf(edges[j]) != TripleOf(edges[i])
    ensures TripleOf(edges[i]) in EdgeMap(ids, edges) && EdgeMap(ids, edges)[TripleOf(edges[i])] == edges[i].evidence
    decreases |edges|
  {
    hide Connected, TripleOf;
    if i < |edges| - 1 {
      LastEvidenceCounts(ids, edges[..|edges| - 1], i);
      assert TripleOf(edges[|edges| - 1]) != TripleOf(edges[i]);
    }
  }

  ghost predicate DistinctTriples(edges: seq<Edge>) {
    forall i, j :: 0 <= i < j < |edges| ==> TripleOf(edges[i]) != TripleOf(edges[j])
  }

  /** The number of relationships handed over is at least the number stored, and the same exactly when no
      triple stands twice among them. */
  lemma {:induction false} ReportedEdgeCount(ids: set<string>, edges: seq<Edge>)
    requires forall i :: 0 <= i < |edges| ==> Connected(ids, edges[i])
    ensures |EdgeMap(ids, edges)| <= |edges|
    ensures |EdgeMap(ids, edges)| == |edges| <==> DistinctTriples(edges)
    decreases |edges|
  {
    hide Connected, TripleOf;
    if edges != [] {
      var init, last := edges[..|edges| - 1], edges[|edges| - 1];
      var m := EdgeMap(ids, init);
      ReportedEdgeCount(ids, init);
      EdgeMapKeys(ids, init, TripleOf(last));
      assert Connected(ids, last);
      UpdateSize(m, TripleOf(last), last.evidence);
      if TripleOf(last) in m {
        var i :| 0 <= i < |init| && Connected(ids, init[i]) && TripleOf(init[i]) == TripleOf(last);
        assert TripleOf(edges[i]) == TripleOf(edges[|edges| - 1]);
      } else {
        DistinctSnoc(init, last);
        forall i | 0 <= i < |init|
          ensures TripleOf(init[i]) != TripleOf(last)
        {
          assert Connected(ids, edges[i]);
        }
        assert edges == init + [last];
      }
    }
  }

  lemma DistinctSnoc(init: seq<Edge>, last: Edge)
    ensures DistinctTriples(init + [last]) <==>
              DistinctTriples(init) && forall i :: 0 <= i < |init| ==> TripleOf(init[i]) != TripleOf(last)
  {
    hide TripleOf;
    var all := init + [last];
    if DistinctTriples(all) {
      forall i | 0 <= i < |init|
        ensures TripleOf(init[i]) != TripleOf(last)
      {
        assert TripleOf(all[i]) != TripleOf(all[|init|]);
      }
      forall i, j | 0 <= i < j < |init|
        ensures TripleOf(init[i]) != TripleOf(init[j])
      {
        assert TripleOf(all[i]) != TripleOf(all[j]);
      }
    }
  }

  lemma UpdateSize<K, V>(m: map<K, V>, k: K, v: V)
    ensures |m[k := v]| == |m| + (if k in m then 0 else 1)
  {
    assert m[k := v].Keys == m.Keys + {k};
    assert |m| == |m.Keys| && |m[k := v]| == |m[k := v].Keys|;
  }

  // ----- the transactions

  function KindTest(kind: string): Edge -> bool {
    (e: Edge) => e.kind == kind
  }

  /** The triples of some types, out of all. */
  function OfKinds(m: map<Triple, string>, kinds: set<string>): map<Triple, string> {
    map t | t in m && t.kind in kinds :: m[t]
  }

  lemma OfKindUpdate(m: map<Triple, string>, kind: string, t: Triple, evidence: string)
    ensures OfKinds(m[t := evidence], {kind}) ==
              if t.kind == kind then OfKinds(m, {kind})[t := evidence] else OfKinds(m, {kind})
  {
  }

  /** Written type by type or in one go, a triple gets the same evidence. */
  lemma {:induction false} OneKindAtATime(ids: set<string>, edges: seq<Edge>, kind: string)
    ensures EdgeMap(ids, Filter(edges, KindTest(kind))) == OfKinds(EdgeMap(ids, edges), {kind})
    decreases |edges|
  {
    hide OfKinds, Connected;
    if edges == [] {
      NoKinds(kind);
    } else {
      var init, last := edges[..|edges| - 1], edges[|edges| - 1];
      OneKindAtATime(ids, init, kind);
      OfKindUpdate(EdgeMap(ids, init), kind, TripleOf(last), last.evidence);
      assert Filter(init, KindTest(kind)) + [] == Filter(init, KindTest(kind));
      FilterSnocMap(ids, Filter(init, KindTest(kind)), last);
    }
  }

  lemma NoKinds(kind: string)
    ensures OfKinds(map[], {kind}) == map[]
  {
  }

  lemma FilterSnocMap(ids: set<string>, edges: seq<Edge>, e: Edge)
    ensures EdgeMap(ids, edges + [e]) ==
              if Connected(ids, e) then EdgeMap(ids, edges)[TripleOf(e) := e.evidence] else EdgeMap(ids, edges)
  {
    assert (edges + [e])[..|edges|] == edges;
  }

  lemma OneMoreKind(m: map<Triple, string>, kinds: set<string>, kind: string)
    ensures OfKinds(m, kinds + {kind}) == OfKinds(m, kinds) + OfKinds(m, {kind})
  {
  }

  lemma EdgesOfSum(document: string, a: map<Triple, string>, b: map<Triple, string>)
    ensures EdgesOf(document, a + b) == EdgesOf(document, a) + EdgesOf(document, b)
  {
  }

  lemma NothingOfKinds(document: string, triples: map<Triple, string>, rest: map<EdgeKey, string>, kinds: set<string>)
    ensures rest == rest + EdgesOf(document, OfKinds(triples, kinds - kinds))
  {
  }

  lemma NothingTyped(document: string, ids: set<string>, typed: seq<Edge>, before: map<EdgeKey, string>)
    ensures before == before + EdgesOf(document, EdgeMap(ids, typed[..0]))
  {
  }

  lemma OneMoreTyped(document: string, ids: set<string>, typed: seq<Edge>, i: nat, before: map<EdgeKey, string>)
    requires i < |typed|
    ensures before + EdgesOf(document, EdgeMap(ids, typed[..i + 1])) ==
              if Connected(ids, typed[i])
              then
                var key := KeyIn(document, TripleOf(typed[i]));
                (before + EdgesOf(document, EdgeMap(ids, typed[..i])))[key := typed[i].evidence]
              else before + EdgesOf(document, EdgeMap(ids, typed[..i]))
  {
    hide EdgeMap, Connected, TripleOf, EdgesOf;
    assert typed[..i + 1] == typed[..i] + [typed[i]];
    FilterSnocMap(ids, typed[..i], typed[i]);
    EdgesOfUpdate(document, EdgeMap(ids, typed[..i]), TripleOf(typed[i]), typed[i].evidence);
    SumUpdate(before, EdgesOf(document, EdgeMap(ids, typed[..i])), KeyIn(document, TripleOf(typed[i])),
              typed[i].evidence);
  }

  lemma EdgesOfUpdate(document: string, triples: map<Triple, string>, t: Triple, evidence: string)
    ensures EdgesOf(document, triples[t := evidence]) == EdgesOf(document, triples)[KeyIn(document, t) := evidence]
  {
    hide EdgesOf;
    forall k | Inside(document, k)
      ensures TripleIn(k) == t <==> k == KeyIn(document, t)
    {
    }
  }

  lemma SumUpdate<K, V>(a: map<K, V>, b: map<K, V>, k: K, v: V)
    ensures a + b[k := v] == (a + b)[k := v]
  {
  }

  lemma KindWritten(document: string, ids: set<string>, edges: seq<Edge>, done: set<string>, kind: string,
                    rest: map<EdgeKey, string>)
    ensures rest + EdgesOf(document, OfKinds(EdgeMap(ids, edges), done)) +
              EdgesOf(document, EdgeMap(ids, Filter(edges, KindTest(kind))))
         == rest + EdgesOf(document, OfKinds(EdgeMap(ids, edges), done + {kind}))
  {
    hide EdgeMap, Filter, EdgesOf;
    OneKindAtATime(ids, edges, kind);
    OneMoreKind(EdgeMap(ids, edges), done, kind);
    EdgesOfSum(document, OfKinds(EdgeMap(ids, edges), done), OfKinds(EdgeMap(ids, edges), {kind}));
    SumsAssociate(rest, EdgesOf(document, OfKinds(EdgeMap(ids, edges), done)),
                  EdgesOf(document, OfKinds(EdgeMap(ids, edges), {kind})));
  }

  lemma SumsAssociate<K, V>(a: map<K, V>, b: map<K, V>, c: map<K, V>)
    ensures a + b + c == a + (b + c)
  {
  }

  lemma AllKinds(ids: set<string>, edges: seq<Edge>, kinds: set<string>)
    requires kinds == set e | e in edges :: e.kind
    ensures OfKinds(EdgeMap(ids, edges), kinds) == EdgeMap(ids, edges)
  {
    hide EdgeMap, Connected;
    forall t | t in EdgeMap(ids, edges)
      ensures t.kind in kinds
    {
      EdgeMapKeys(ids, edges, t);
    }
  }

  lemma NodesAreThere(g: Graph, document: string, ids: set<string>, id: string)
    ensures Node(document, id) in Detached(g, document).nodes + NodesOf(document, ids) <==> id in ids
  {
  }

  lemma NodesOfSum(document: string, a: set<string>, b: set<string>)
    ensures NodesOf(document, a) + NodesOf(document, b) == NodesOf(document, a + b)
  {
  }

  /** Every relationship has its two nodes. */
  predicate NoDangling(g: Graph) {
    forall k :: k in g.edges ==> k.source in g.nodes && k.target in g.nodes
  }

  lemma {:induction false} ConnectedTriples(ids: set<string>, edges: seq<Edge>, t: Triple)
    requires t in EdgeMap(ids, edges)
    ensures t.source in ids && t.target in ids
    decreases |edges|
  {
    if TripleOf(edges[|edges| - 1]) != t || !Connected(ids, edges[|edges| - 1]) {
      ConnectedTriples(ids, edges[..|edges| - 1], t);
    }
  }

  /** Replacing and deleting leave no relationship without its nodes. */
  lemma NothingDangles(g: Graph, document: string, c: Content)
    requires NoDangling(g)
    ensures NoDangling(Detached(g, document)) && NoDangling(Replaced(g, document, c))
  {
    hide EdgeMap;
    forall t | t in EdgeMap(c.ids, c.edges)
      ensures t.source in c.ids && t.target in c.ids
    {
      ConnectedTriples(c.ids, c.edges, t);
    }
  }

  class GraphStore {
    var nodes: set<Node>
    var edges: map<EdgeKey, string>

    constructor ()
      ensures Stored() == Graph({}, map[])
    {
      nodes, edges := {}, map[];
    }

    function Stored(): Graph
      reads this
    {
      Graph(nodes, edges)
    }

    /** DETACH DELETE of the nodes of a document. */
    method Detach(document: string)
      modifies this
      ensures Stored() == Detached(old(Stored()), document)
    {
      nodes, edges := set n | n in nodes && n.document != document,
                      map k | k in edges && !Touches(document, k) :: edges[k];
    }

    /** MATCH both ends, then MERGE the relationship and set its evidence. */
    method MergeEdge(document: string, e: Edge)
      modifies this`edges
      ensures edges == if Node(document, e.source) in nodes && Node(document, e.target) in nodes
                       then old(edges)[KeyIn(document, TripleOf(e)) := e.evidence] else old(edges)
    {
      if Node(document, e.source) in nodes && Node(document, e.target) in nodes {
        edges := edges[EdgeKey(Node(document, e.source), e.kind, Node(document, e.target)) := e.evidence];
      }
    }

    /** The write transaction: the document is detached, its nodes are merged, and its relationships type
        by type, in whatever order the types come. */
    method ReplaceGraph(document: string, chunkIds: seq<string>, referenceIds: set<string>, relationships: seq<Edge>)
      returns (nodeCount: nat, edgeCount: nat)
      requires NoDangling(Stored())
      modifies this
      ensures Stored() ==
                Replaced(old(Stored()), document, Content((set id | id in chunkIds) + referenceIds, relationships))
      ensures NoDangling(Stored())
      ensures nodeCount == |chunkIds| + |referenceIds| && edgeCount == |relationships|
    {
      hide EdgeMap, EdgesOf, Filter, OfKinds, NoDangling, KeyIn;
      NothingDangles(Stored(), document, Content((set id | id in chunkIds) + referenceIds, relationships));
      Detach(document);
      ghost var ids := (set id | id in chunkIds) + referenceIds;
      ghost var before := Stored();
      nodes := nodes + NodesOf(document, set id | id in chunkIds);
      nodes := nodes + NodesOf(document, referenceIds);
      NodesOfSum(document, (set id | id in chunkIds), referenceIds);
      assert nodes == before.nodes + NodesOf(document, ids);
      MergeRelationships(document, relationships, ids, old(Stored()));
      nodeCount, edgeCount := |chunkIds| + |referenceIds|, |relationships|;
    }

    method MergeRelationships(document: string, relationships: seq<Edge>, ghost ids: set<string>, ghost g: Graph)
      requires nodes == Detached(g, document).nodes + NodesOf(document, ids)
      modifies this`edges
      ensures edges == old(edges) + EdgesOf(document, EdgeMap(ids, relationships))
    {
      hide EdgeMap, EdgesOf, Filter, OfKinds, Detached, NodesOf;
      ghost var rest := edges;
      var kinds := set e | e in relationships :: e.kind;
      var left := kinds;
      NothingOfKinds(document, EdgeMap(ids, relationships), rest, kinds);
      while left != {}
        invariant left <= kinds
        invariant edges == rest + EdgesOf(document, OfKinds(EdgeMap(ids, relationships), kinds - left))
        decreases |left|
      {
        var kind :| kind in left;
        MergeTyped(document, Filter(relationships, KindTest(kind)), ids, g);
        KindWritten(document, ids, relationships, kinds - left, kind, rest);
        assert kinds - (left - {kind}) == (kinds - left) + {kind};
        left := left - {kind};
      }
      assert kinds - left == kinds;
      AllKinds(ids, relationships, kinds);
    }

    method MergeTyped(document: string, typed: seq<Edge>, ghost ids: set<string>, ghost g: Graph)
      requires nodes == Detached(g, document).nodes + NodesOf(document, ids)
      modifies this`edges
      ensures edges == old(edges) + EdgesOf(document, EdgeMap(ids, typed))
    {
      hide EdgeMap, EdgesOf, Detached, NodesOf, KeyIn, TripleOf;
      NothingTyped(document, ids, typed, edges);
      for i := 0 to |typed|
        invariant edges == old(edges) + EdgesOf(document, EdgeMap(ids, typed[..i]))
      {
        NodesAreThere(g, document, ids, typed[i].source);
        NodesAreThere(g, document, ids, typed[i].target);
        OneMoreTyped(document, ids, typed, i, old(edges));
        MergeEdge(document, typed[i]);
      }
      assert typed[..|typed|] == typed;
    }

    /** Counts the nodes of the document and the relationships at them, and deletes both. */
    method DeleteGraph(document: string) returns (nodeCount: nat, edgeCount: nat)
      requires NoDangling(Stored())
      modifies this
      ensures Stored() == Detached(old(Stored()), document) && NoDangling(Stored())
      ensures nodeCount == |old(nodes)| - |nodes| && edgeCount == |old(edges)| - |edges|
    {
      var counted := set n | n in nodes && n.document == document;
      var attached := set k | k in edges && (k.source in counted || k.target in counted);
      nodeCount, edgeCount := |counted|, |attached|;
      DeletedCounts(Stored(), document, counted, attached);
      NothingDangles(Stored(), document, Content({}, []));
      Detach(document);
    }
  }

  /** The counts are exactly what the deletion removes. */
  lemma DeletedCounts(g: Graph, document: string, counted: set<Node>, attached: set<EdgeKey>)
    requires NoDangling(g)
    requires counted == set n | n in g.nodes && n.document == document
    requires attached == set k | k in g.edges && (k.source in counted || k.target in counted)
    ensures |counted| == |g.nodes| - |Detached(g, document).nodes|
    ensures |attached| == |g.edges| - |Detached(g, document).edges|
  {
    var rest := Detached(g, document);
    SplitSize(g.nodes, rest.nodes, counted);
    forall k | k in g.edges
      ensures k in attached <==> Touches(document, k)
    {
    }
    SplitSize(g.edges.Keys, rest.edges.Keys, attached);
    KeyCount(g.edges);
    KeyCount(rest.edges);
  }

  lemma SplitSize<T(!new)>(all: set<T>, left: set<T>, right: set<T>)
    requires forall x :: x in all <==> x in left || x in right
    requires forall x :: x in left ==> x !in right
    ensures |all| == |left| + |right|
  {
    assert all == left + right && left !! right;
  }

  lemma KeyCount<K, V>(m: map<K, V>)
    ensures |m| == |m.Keys|
  {
  }

  // ----- what a projection stores

  /** The projection of a document as content. */
  ghost function ContentOf(document: string, chunks: seq<Chunk>, normal: string -> string): Content {
    var edges := Edges(document, chunks, |chunks|, normal);
    Content((set node | node in ChunkNodes(document, chunks, |chunks|) :: node.id) +
            AddEndpoints(ReferencesOfChunks(document, chunks, |chunks|), document, edges).Keys, edges)
  }

  lemma ChunkNodeIsContent(document: string, chunks: seq<Chunk>, normal: string -> string, id: string)
    requires IsChunkNode(document, chunks, id)
    ensures id in ContentOf(document, chunks, normal).ids
  {
    hide Projected, NodeId, Edges, AddEndpoints, ReferencesOfChunks, ChunkNodes;
    var j :| 0 <= j < |chunks| && Projected(chunks[j]) && NodeId(document, chunks[j].id) == id;
    var node := ChunkNode(NodeId(document, chunks[j].id), chunks[j].id, chunks[j].references);
    NodesAreProjected(document, chunks, |chunks|, node);
  }

  // ----- what the store holds of a document

  function HeldNodes(g: Graph, document: string): set<Node> {
    set n | n in g.nodes && n.document == document
  }

  function HeldEdges(g: Graph, document: string): set<EdgeKey> {
    set k | k in g.edges && Touches(document, k)
  }

  lemma {:induction false} NodesOfCount(document: string, ids: set<string>)
    ensures |NodesOf(document, ids)| == |ids|
    decreases |ids|
  {
    if ids != {} {
      var id :| id in ids;
      NodesOfCount(document, ids - {id});
      assert NodesOf(document, ids) == NodesOf(document, ids - {id}) + {Node(document, id)};
      assert |ids| == |ids - {id}| + 1;
    }
  }

  lemma {:induction false} KeysInCount(document: string, triples: set<Triple>)
    ensures |set t | t in triples :: KeyIn(document, t)| == |triples|
    decreases |triples|
  {
    if triples != {} {
      var t :| t in triples;
      KeysInCount(document, triples - {t});
      var rest := set x | x in triples - {t} :: KeyIn(document, x);
      assert (set x | x in triples :: KeyIn(document, x)) == rest + {KeyIn(document, t)};
      assert KeyIn(document, t) !in rest;
      assert |triples| == |triples - {t}| + 1;
    }
  }

  lemma EdgesOfCount(document: string, m: map<Triple, string>)
    ensures |EdgesOf(document, m).Keys| == |m|
  {
    KeysInCount(document, m.Keys);
    var keys := set t | t in m.Keys :: KeyIn(document, t);
    InsideKeys(document, m, set t | t in m :: KeyIn(document, t));
    assert EdgesOf(document, m).Keys == keys;
    KeyCount(m);
  }

  lemma HeldNodesAfterReplace(g: Graph, document: string, c: Content)
    ensures HeldNodes(Replaced(g, document, c), document) == NodesOf(document, c.ids)
  {
    hide EdgeMap, EdgesOf, NodesOf;
  }

  lemma HeldEdgesAfterReplace(g: Graph, document: string, c: Content)
    ensures HeldEdges(Replaced(g, document, c), document) == EdgesOf(document, EdgeMap(c.ids, c.edges)).Keys
  {
    hide EdgeMap, EdgesOf, NodesOf;
    var after := Replaced(g, document, c);
    forall k
      ensures k in after.edges && Touches(document, k) <==> k in EdgesOf(document, EdgeMap(c.ids, c.edges))
    {
    }
  }

  /** After a replace the store holds of the document as many nodes and relationships as it was given: each
      id once, and each connected triple once. */
  lemma HeldAfterReplace(g: Graph, document: string, c: Content)
    ensures HeldEdges(Replaced(g, document, c), document) == EdgesOf(document, EdgeMap(c.ids, c.edges)).Keys
    ensures |HeldNodes(Replaced(g, document, c), document)| == |c.ids|
    ensures |HeldEdges(Replaced(g, document, c), document)| == |EdgeMap(c.ids, c.edges)|
  {
    hide EdgeMap, EdgesOf, NodesOf, HeldNodes, HeldEdges, Replaced;
    HeldNodesAfterReplace(g, document, c);
    HeldEdgesAfterReplace(g, document, c);
    NodesOfCount(document, c.ids);
    EdgesOfCount(document, EdgeMap(c.ids, c.edges));
  }

  /** Every relationship of a projection is in the store after it was written. The count that is reported is
      never less than what the store holds of the document, and the same exactly when no two relationships
      share ends and type. */
  lemma ProjectionIsStored(g: Graph, document: string, chunks: seq<Chunk>, normal: string -> string)
    ensures var c := ContentOf(document, chunks, normal);
            var after := Replaced(g, document, c);
            && (forall i :: 0 <= i < |c.edges| ==> KeyIn(document, TripleOf(c.edges[i])) in HeldEdges(after, document))
            && |HeldEdges(after, document)| <= |c.edges|
            && (|HeldEdges(after, document)| == |c.edges| <==> DistinctTriples(c.edges))
  {
    hide IsChunkNode, Edges, AddEndpoints, ReferencesOfChunks, ChunkNodes, EdgeMap, TripleOf, DistinctTriples, Replaced,
      HeldEdges, HeldNodes;
    var c := ContentOf(document, chunks, normal);
    forall i | 0 <= i < |c.edges|
      ensures Connected(c.ids, c.edges[i])
    {
      EdgeIsConnected(document, chunks, normal, i);
    }
    hide Connected;
    ReportedEdgeCount(c.ids, c.edges);
    HeldAfterReplace(g, document, c);
    forall i | 0 <= i < |c.edges|
      ensures KeyIn(document, TripleOf(c.edges[i])) in HeldEdges(Replaced(g, document, c), document)
    {
      assert Connected(c.ids, c.edges[i]);
      EdgeMapKeys(c.ids, c.edges, TripleOf(c.edges[i]));
      assert TripleIn(KeyIn(document, TripleOf(c.edges[i]))) == TripleOf(c.edges[i]);
    }
  }

  lemma EdgeIsConnected(document: string, chunks: seq<Chunk>, normal: string -> string, i: nat)
    requires i < |ContentOf(document, chunks, normal).edges|
    ensures Connected(ContentOf(document, chunks, normal).ids, ContentOf(document, chunks, normal).edges[i])
  {
    hide IsChunkNode, Edges, AddEndpoints, ReferencesOfChunks, ChunkNodes;
    var c := ContentOf(document, chunks, normal);
    ProjectionIsClosed(document, chunks, normal, i);
    if IsChunkNode(document, chunks, c.edges[i].source) {
      ChunkNodeIsContent(document, chunks, normal, c.edges[i].source);
    }
    if IsChunkNode(document, chunks, c.edges[i].target) {
      ChunkNodeIsContent(document, chunks, normal, c.edges[i].target);
    }
  }

  /** With distinct chunk ids the number of nodes that is reported is the number the store holds. */
  lemma ReportedNodeCount(g: Graph, document: string, chunks: seq<Chunk>, normal: string -> string)
    requires DistinctIds(chunks)
    ensures var c := ContentOf(document, chunks, normal);
            var references := AddEndpoints(ReferencesOfChunks(document, chunks, |chunks|), document, c.edges);
            |HeldNodes(Replaced(g, document, c), document)| == |ChunkNodes(document, chunks, |chunks|)| + |references|
  {
    hide Edges, AddEndpoints, ReferencesOfChunks, ChunkNodes, DistinctIds, NodeId, Projected, Replaced, HeldNodes,
      HeldEdges, EdgeMap;
    var c := ContentOf(document, chunks, normal);
    HeldAfterReplace(g, document, c);
    var nodes := ChunkNodes(document, chunks, |chunks|);
    var refs := AddEndpoints(ReferencesOfChunks(document, chunks, |chunks|), document, c.edges);
    var ids := set node | node in nodes :: node.id;
    NodeIdsAreDistinct(document, chunks, |chunks|);
    DistinctNodeCount(nodes);
    forall id | id in refs
      ensures id !in ids
    {
      ReferenceNodesExactly(document, chunks, normal, id);
      forall node | node in nodes
        ensures node.id != id
      {
        NodesAreProjected(document, chunks, |chunks|, node);
        NodeIsNoReference(document, node.chunkId);
      }
    }
    KeyCount(refs);
    SplitSize(c.ids, ids, refs.Keys);
  }

  lemma {:induction false} DistinctNodeCount(nodes: seq<ChunkNode>)
    requires DistinctNodeIds(nodes)
    ensures |set node | node in nodes :: node.id| == |nodes|
    decreases |nodes|
  {
    if nodes != [] {
      var init, last := nodes[..|nodes| - 1], nodes[|nodes| - 1];
      DistinctNodeCount(init);
      assert nodes == init + [last];
      var before := set node | node in init :: node.id;
      assert (set node | node in nodes :: node.id) == before + {last.id};
      assert last.id !in before;
    }
  }
}
