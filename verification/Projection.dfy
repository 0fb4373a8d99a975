/**
 The projection of a document into the graph: a node for every chunk that may be projected, a node for
 every reference, and the relationships between them. Relationships name chunks by aliases.
 */
module Projection {
  import opened Wrappers
  import opened Text
  import opened QualityPolicy

  datatype Relationship = Relationship(source: string, target: string, kind: string, evidence: string)

  /** A chunk as the projection reads it. An empty source id stands for a missing one; a relationship that
      is not a mapping is `None`. */
  datatype Chunk = Chunk(id: string, runtimeSource: string, sourceId: string, policy: Option<Policy>,
                         references: seq<string>, relationships: seq<Option<Relationship>>, edgeTypes: seq<string>)

  datatype ChunkNode = ChunkNode(id: string, chunkId: string, references: seq<string>)

  datatype Edge = Edge(source: string, kind: string, target: string, evidence: string)

  function NodeId(document: string, chunkId: string): string {
    "chunk:" + document + ":" + chunkId
  }

  function ReferenceId(document: string, reference: string): string {
    var normalized := Strip(reference);
    "ref:" + document + ":" + (if "ref:" <= normalized then normalized[4..] else normalized)
  }

  function ReferenceValue(id: string, document: string): string {
    var prefix := "ref:" + document + ":";
    if prefix <= id then id[|prefix|..] else if "ref:" <= id then id[4..] else id
  }

  function Decimal(n: nat): string {
    if n < 10 then [('0' as int + n) as char] else Decimal(n / 10) + [('0' as int + n % 10) as char]
  }

  predicate IsLegacy(r: Option<Relationship>) {
    r.Some? && (r.value.source == "chunk:legacy" || r.value.target == "chunk:legacy")
  }

  /** The names under which relationships may speak of a chunk. */
  function Aliases(c: Chunk, index: nat): set<string> {
    {"chunk:" + Decimal(index), "chunk:" + c.id}
    + (if c.runtimeSource != "" then {"chunk:" + c.runtimeSource} else {})
    + (if c.sourceId != "" then {"chunk:" + c.sourceId} else {})
    + (if exists i :: 0 <= i < |c.relationships| && IsLegacy(c.relationships[i]) then {"chunk:legacy"} else {})
  }

  predicate DistinctIds(chunks: seq<Chunk>) {
    forall i, j :: 0 <= i < j < |chunks| ==> chunks[i].id != chunks[j].id
  }

  predicate Projected(c: Chunk) {
    ProjectsGraph(c.policy)
  }

  // ----- what a name means

  predicate Bears(chunks: seq<Chunk>, j: int, alias: string) {
    0 <= j < |chunks| && Projected(chunks[j]) && alias in Aliases(chunks[j], j)
  }

  /** The nodes of the projected chunks among the first `n` that bear a name. */
  function Bearers(document: string, chunks: seq<Chunk>, n: nat, alias: string): set<string>
    requires n <= |chunks|
  {
    set j | 0 <= j < n && Bears(chunks, j, alias) :: NodeId(document, chunks[j].id)
  }

  /** The only member of a set. */
  function Only(s: set<string>): (x: string)
    requires |s| == 1
    ensures s == {x}
  {
    OnlyOne(s);
    var x :| x in s; x
  }

  lemma OnlyOne(s: set<string>)
    requires |s| == 1
    ensures exists x :: s == {x}
  {
    var x :| x in s;
    assert s == {x} + (s - {x});
    assert |s - {x}| == 0;
  }

  /** The node a name stands for in a relationship of chunk number `i`: its own node for one of its own
      names, the only projected chunk of that name, or a reference. */
  function Resolve(document: string, chunks: seq<Chunk>, i: nat, value: string): string
    requires i < |chunks|
  {
    if value == "" then ""
    else if Bears(chunks, i, value) then NodeId(document, chunks[i].id)
    else if |Bearers(document, chunks, |chunks|, value)| == 1 then Only(Bearers(document, chunks, |chunks|, value))
    else if "ref:" <= value then ReferenceId(document, value)
    else if "chunk:" <= value then ""
    else ReferenceId(document, value)
  }

  /** The relationship types that the chunks declare; `normal` is the form the graph can store. */
  function DeclaredTypes(chunks: seq<Chunk>, normal: string -> string): set<string> {
    set c, t | c in chunks && t in c.edgeTypes :: normal(t)
  }

  function EdgeType(chunks: seq<Chunk>, kind: string, normal: string -> string): string {
    var declared := DeclaredTypes(chunks, normal);
    var t := normal(if kind == "" then "RELATED" else kind);
    if declared != {} && t !in declared then "RELATED" else t
  }

  function EdgeOf(document: string, chunks: seq<Chunk>, i: nat, r: Option<Relationship>,
                  normal: string -> string): Option<Edge>
    requires i < |chunks|
  {
    if r.None? then None
    else
      var source, target := Resolve(document, chunks, i, r.value.source), Resolve(document, chunks, i, r.value.target);
      if source == "" || target == "" then None
      else Some(Edge(source, EdgeType(chunks, r.value.kind, normal), target, r.value.evidence))
  }

  /** The edges of the first `n` relationships of a chunk. */
  function EdgesOfChunk(document: string, chunks: seq<Chunk>, i: nat, n: nat, normal: string -> string): seq<Edge>
    requires i < |chunks| && n <= |chunks[i].relationships|
  {
    if n == 0 then []
    else
      var e := EdgeOf(document, chunks, i, chunks[i].relationships[n - 1], normal);
      EdgesOfChunk(document, chunks, i, n - 1, normal) + (if e.Some? then [e.value] else [])
  }

  function Edges(document: string, chunks: seq<Chunk>, n: nat, normal: string -> string): seq<Edge>
    requires n <= |chunks|
  {
    if n == 0 then []
    else
      Edges(document, chunks, n - 1, normal) +
      (if Projected(chunks[n - 1])
       then EdgesOfChunk(document, chunks, n - 1, |chunks[n - 1].relationships|, normal) else [])
  }

  function ChunkNodes(document: string, chunks: seq<Chunk>, n: nat): seq<ChunkNode>
    requires n <= |chunks|
  {
    if n == 0 then []
    else
      var c := chunks[n - 1];
      ChunkNodes(document, chunks, n - 1) +
      (if Projected(c) then [ChunkNode(NodeId(document, c.id), c.id, c.references)] else [])
  }

  // ----- reference nodes

  /** `dict.setdefault` */
  function SetDefault<K, V>(m: map<K, V>, k: K, v: V): map<K, V> {
    if k in m then m else m[k := v]
  }

  function AddReferences(refs: map<string, string>, document: string, references: seq<string>): map<string, string> {
    if references == [] then refs
    else
      var last := references[|references| - 1];
      SetDefault(AddReferences(refs, document, references[..|references| - 1]), ReferenceId(document, last), last)
  }

  function ReferencesOfChunks(document: string, chunks: seq<Chunk>, n: nat): map<string, string>
    requires n <= |chunks|
  {
    if n == 0 then map[]
    else
      var refs := ReferencesOfChunks(document, chunks, n - 1);
      if Projected(chunks[n - 1]) then AddReferences(refs, document, chunks[n - 1].references) else refs
  }

  function AddEndpoint(refs: map<string, string>, document: string, id: string): map<string, string> {
    if "ref:" <= id then SetDefault(refs, id, ReferenceValue(id, document)) else refs
  }

  function AddEndpoints(refs: map<string, string>, document: string, edges: seq<Edge>): map<string, string> {
    if edges == [] then refs
    else
      var last := edges[|edges| - 1];
      AddEndpoint(AddEndpoint(AddEndpoints(refs, document, edges[..|edges| - 1]), document, last.source), document,
                  last.target)
  }

  lemma AddEndpointsSnoc(refs: map<string, string>, document: string, edges: seq<Edge>, e: Edge)
    ensures AddEndpoints(refs, document, edges + [e]) ==
              AddEndpoint(AddEndpoint(AddEndpoints(refs, document, edges), document, e.source), document, e.target)
  {
    assert (edges + [e])[..|edges|] == edges;
  }

  // ----- the two passes

  /** The names of every projected chunk. */
  ghost predicate NamesKnown(document: string, chunks: seq<Chunk>, n: nat, names: map<string, set<string>>)
    requires n <= |chunks|
  {
    && (forall id :: id in names <==>
          exists j :: 0 <= j < n && Projected(chunks[j]) && NodeId(document, chunks[j].id) == id)
    && (forall j :: 0 <= j < n && Projected(chunks[j]) ==>
          NodeId(document, chunks[j].id) in names && names[NodeId(document, chunks[j].id)] == Aliases(chunks[j], j))
  }

  /** What the first pass knows after `n` chunks: the names of every projected chunk, and who bears a name. */
  ghost predicate Indexed(document: string, chunks: seq<Chunk>, n: nat, names: map<string, set<string>>,
                          bearers: map<string, set<string>>)
  {
    && n <= |chunks|
    && NamesKnown(document, chunks, n, names)
    && (forall alias :: (if alias in bearers then bearers[alias] else {}) == Bearers(document, chunks, n, alias))
  }

  /** Adds a node to the bearers of each of its names. */
  function AddNames(bearers: map<string, set<string>>, aliases: set<string>,
                    id: string): (more: map<string, set<string>>)
    ensures forall a :: a in more <==> a in bearers || a in aliases
    ensures forall a :: a in more ==>
              more[a] == (if a in bearers then bearers[a] else {}) + (if a in aliases then {id} else {})
  {
    map a | a in bearers.Keys + aliases ::
      (if a in bearers then bearers[a] else {}) + (if a in aliases then {id} else {})
  }

  lemma DifferentNodes(document: string, a: string, b: string)
    ensures NodeId(document, a) == NodeId(document, b) <==> a == b
  {
    var prefix := "chunk:" + document + ":";
    assert NodeId(document, a)[|prefix|..] == a && NodeId(document, b)[|prefix|..] == b;
  }

  lemma OneMoreBearer(document: string, chunks: seq<Chunk>, n: nat, alias: string)
    requires n < |chunks|
    ensures var bearer := if Bears(chunks, n, alias) then {NodeId(document, chunks[n].id)} else {};
            Bearers(document, chunks, n + 1, alias) == Bearers(document, chunks, n, alias) + bearer
  {
    hide Aliases, Projected, NodeId;
  }

  lemma NamesOneMore(document: string, chunks: seq<Chunk>, n: nat, names: map<string, set<string>>)
    requires n < |chunks| && DistinctIds(chunks) && NamesKnown(document, chunks, n, names)
    ensures if Projected(chunks[n]) then
              NamesKnown(document, chunks, n + 1, names[NodeId(document, chunks[n].id) := Aliases(chunks[n], n)])
            else NamesKnown(document, chunks, n + 1, names)
  {
    hide Aliases, Projected, NodeId;
    forall j | 0 <= j < n
      ensures NodeId(document, chunks[j].id) != NodeId(document, chunks[n].id)
    {
      DifferentNodes(document, chunks[j].id, chunks[n].id);
    }
  }

  lemma IndexOneMore(document: string, chunks: seq<Chunk>, n: nat, names: map<string, set<string>>,
                     bearers: map<string, set<string>>)
    requires n < |chunks| && DistinctIds(chunks) && Indexed(document, chunks, n, names, bearers)
    ensures if Projected(chunks[n]) then
              var id, aliases := NodeId(document, chunks[n].id), Aliases(chunks[n], n);
              Indexed(document, chunks, n + 1, names[id := aliases], AddNames(bearers, aliases, id))
            else Indexed(document, chunks, n + 1, names, bearers)
  {
    hide Aliases, Projected, NodeId, Bearers, NamesKnown, DistinctIds;
    NamesOneMore(document, chunks, n, names);
    forall alias
      ensures var bearer := if Bears(chunks, n, alias) then {NodeId(document, chunks[n].id)} else {};
              Bearers(document, chunks, n + 1, alias) == Bearers(document, chunks, n, alias) + bearer
    {
      OneMoreBearer(document, chunks, n, alias);
    }
  }

  /** Reads the chunks once: their nodes, the references they list, and who bears which name. */
  method IndexChunks(document: string, chunks: seq<Chunk>)
    returns (nodes: seq<ChunkNode>, refs: map<string, string>, names: map<string, set<string>>,
             bearers: map<string, set<string>>)
    requires DistinctIds(chunks)
    ensures nodes == ChunkNodes(document, chunks, |chunks|)
    ensures refs == ReferencesOfChunks(document, chunks, |chunks|)
    ensures Indexed(document, chunks, |chunks|, names, bearers)
  {
    hide Aliases, Projected, NodeId, Bearers, Indexed, DistinctIds, AddReferences, AddNames, SetDefault, ReferenceId;
    nodes, refs, names, bearers := [], map[], map[], map[];
    NothingIndexed(document, chunks);
    for i := 0 to |chunks|
      invariant nodes == ChunkNodes(document, chunks, i)
      invariant refs == ReferencesOfChunks(document, chunks, i)
      invariant Indexed(document, chunks, i, names, bearers)
    {
      var c := chunks[i];
      IndexOneMore(document, chunks, i, names, bearers);
      if Projected(c) {
        var id, aliases := NodeId(document, c.id), Aliases(c, i);
        names, bearers := names[id := aliases], AddNames(bearers, aliases, id);
        ghost var before := refs;
        NoReferences(refs, document, c.references);
        for j := 0 to |c.references|
          invariant refs == AddReferences(before, document, c.references[..j])
        {
          OneMoreReference(before, document, c.references, j);
          refs := SetDefault(refs, ReferenceId(document, c.references[j]), c.references[j]);
        }
        assert c.references[..|c.references|] == c.references;
        nodes := nodes + [ChunkNode(id, c.id, c.references)];
      }
    }
  }

  lemma NothingIndexed(document: string, chunks: seq<Chunk>)
    ensures Indexed(document, chunks, 0, map[], map[])
  {
  }

  lemma NoReferences(refs: map<string, string>, document: string, references: seq<string>)
    ensures refs == AddReferences(refs, document, references[..0])
  {
  }

  lemma OneMoreReference(refs: map<string, string>, document: string, references: seq<string>, j: nat)
    requires j < |references|
    ensures AddReferences(refs, document, references[..j + 1]) ==
              SetDefault(AddReferences(refs, document, references[..j]), ReferenceId(document, references[j]),
                         references[j])
  {
    assert references[..j + 1][..j] == references[..j];
  }

  /** The names that only one chunk bears. */
  function Unambiguous(bearers: map<string, set<string>>): map<string, string> {
    map a | a in bearers && |bearers[a]| == 1 :: Only(bearers[a])
  }

  function GraphNodeId(document: string, value: string, unique: map<string, string>, node: string,
                       names: set<string>): string
  {
    if value == "" then ""
    else if value in names then node
    else if value in unique then unique[value]
    else if "ref:" <= value then ReferenceId(document, value)
    else if "chunk:" <= value then ""
    else ReferenceId(document, value)
  }

  lemma GraphNodeIdResolves(document: string, chunks: seq<Chunk>, i: nat, value: string,
                            names: map<string, set<string>>, bearers: map<string, set<string>>)
    requires Indexed(document, chunks, |chunks|, names, bearers) && i < |chunks| && Projected(chunks[i])
    ensures NodeId(document, chunks[i].id) in names
    ensures GraphNodeId(document, value, Unambiguous(bearers), NodeId(document, chunks[i].id),
                        names[NodeId(document, chunks[i].id)])
         == Resolve(document, chunks, i, value)
  {
    hide Aliases, Projected, NodeId, Bearers, ReferenceId, Only;
  }

  /** The projection of a document: its chunk nodes, its reference nodes by id, and its relationships.
      `normal` brings a relationship type into the form the graph can store. */
  method Project(document: string, chunks: seq<Chunk>, normal: string -> string)
    returns (nodes: seq<ChunkNode>, refs: map<string, string>, edges: seq<Edge>)
    requires DistinctIds(chunks)
    ensures nodes == ChunkNodes(document, chunks, |chunks|)
    ensures edges == Edges(document, chunks, |chunks|, normal)
    ensures refs == AddEndpoints(ReferencesOfChunks(document, chunks, |chunks|), document, edges)
  {
    hide Aliases, Projected, NodeId, Bearers, Indexed, DistinctIds, ReferencesOfChunks, AddEndpoint, Resolve,
      GraphNodeId, Unambiguous, AddEndpoints, EdgeType, DeclaredTypes;
    var names: map<string, set<string>>, bearers: map<string, set<string>>;
    nodes, refs, names, bearers := IndexChunks(document, chunks);
    var unique, declared := Unambiguous(bearers), DeclaredTypes(chunks, normal);
    edges := [];
    NoEndpoints(refs, document);
    for i := 0 to |chunks|
      invariant edges == Edges(document, chunks, i, normal)
      invariant refs == AddEndpoints(ReferencesOfChunks(document, chunks, |chunks|), document, edges)
    {
      if Projected(chunks[i]) {
        var node := NodeId(document, chunks[i].id);
        GraphNodeIdResolves(document, chunks, i, "", names, bearers);
        for n := 0 to |chunks[i].relationships|
          invariant edges == Edges(document, chunks, i, normal) + EdgesOfChunk(document, chunks, i, n, normal)
          invariant refs == AddEndpoints(ReferencesOfChunks(document, chunks, |chunks|), document, edges)
        {
          var r := chunks[i].relationships[n];
          if r.Some? {
            GraphNodeIdResolves(document, chunks, i, r.value.source, names, bearers);
            GraphNodeIdResolves(document, chunks, i, r.value.target, names, bearers);
            var source := GraphNodeId(document, r.value.source, unique, node, names[node]);
            var target := GraphNodeId(document, r.value.target, unique, node, names[node]);
            var kind := normal(if r.value.kind == "" then "RELATED" else r.value.kind);
            if declared != {} && kind !in declared {
              kind := "RELATED";
            }
            EdgeTypeIs(chunks, r.value.kind, normal);
            if source != "" && target != "" {
              var e := Edge(source, kind, target, r.value.evidence);
              AddEndpointsSnoc(ReferencesOfChunks(document, chunks, |chunks|), document, edges, e);
              refs := AddEndpoint(AddEndpoint(refs, document, source), document, target);
              edges := edges + [e];
            }
          }
        }
      }
    }
  }

  lemma EdgeTypeIs(chunks: seq<Chunk>, kind: string, normal: string -> string)
    ensures EdgeType(chunks, kind, normal) ==
              var t := normal(if kind == "" then "RELATED" else kind);
              if DeclaredTypes(chunks, normal) != {} && t !in DeclaredTypes(chunks, normal) then "RELATED" else t
  {
  }

  lemma NoEndpoints(refs: map<string, string>, document: string)
    ensures AddEndpoints(refs, document, []) == refs
  {
  }

  // ----- what the projection keeps to

  /** The id is that of an emitted chunk node. */
  predicate IsChunkNode(document: string, chunks: seq<Chunk>, id: string) {
    exists j :: 0 <= j < |chunks| && Projected(chunks[j]) && NodeId(document, chunks[j].id) == id
  }

  lemma {:induction false} NodesAreProjected(document: string, chunks: seq<Chunk>, n: nat, node: ChunkNode)
    requires n <= |chunks|
    ensures node in ChunkNodes(document, chunks, n) <==>
              exists j :: 0 <= j < n && Projected(chunks[j]) &&
                  node == ChunkNode(NodeId(document, chunks[j].id), chunks[j].id, chunks[j].references)
    decreases n
  {
    hide Projected, NodeId;
    if n > 0 {
      NodesAreProjected(document, chunks, n - 1, node);
    }
  }

  /** A chunk has a node unless its policy keeps it out of the graph; the node is named by document and chunk. */
  lemma ChunkNodesTell(document: string, chunks: seq<Chunk>, node: ChunkNode)
    ensures node in ChunkNodes(document, chunks, |chunks|) <==>
              exists j :: 0 <= j < |chunks|
                          && (chunks[j].policy.Some? ==>
                                chunks[j].policy.value.projectGraph && chunks[j].policy.value.confidence != Blocked)
                          && node == ChunkNode("chunk:" + document + ":" + chunks[j].id, chunks[j].id,
                                               chunks[j].references)
  {
    NodesAreProjected(document, chunks, |chunks|, node);
    hide ChunkNodes;
  }

  /** A name stands for nothing, for a chunk that is projected, or for a reference. */
  lemma ResolvesToNode(document: string, chunks: seq<Chunk>, i: nat, value: string)
    requires i < |chunks|
    ensures var id := Resolve(document, chunks, i, value);
            id == "" || IsChunkNode(document, chunks, id) || "ref:" <= id
  {
    hide Aliases, Projected, NodeId;
    var all := Bearers(document, chunks, |chunks|, value);
    if |all| == 1 {
      var only := Only(all);
      assert only in all;
      var j :| 0 <= j < |chunks| && Bears(chunks, j, value) && only == NodeId(document, chunks[j].id);
    }
  }

  ghost predicate EndpointsResolve(document: string, chunks: seq<Chunk>, e: Edge) {
    && (IsChunkNode(document, chunks, e.source) || "ref:" <= e.source)
    && (IsChunkNode(document, chunks, e.target) || "ref:" <= e.target)
  }

  lemma {:induction false} ChunkEdgesResolve(document: string, chunks: seq<Chunk>, i: nat, n: nat,
                                             normal: string -> string, e: Edge)
    requires i < |chunks| && n <= |chunks[i].relationships| && e in EdgesOfChunk(document, chunks, i, n, normal)
    ensures EndpointsResolve(document, chunks, e)
    decreases n
  {
    hide Resolve, IsChunkNode, EdgeType;
    var r := chunks[i].relationships[n - 1];
    if r.Some? && EdgeOf(document, chunks, i, r, normal) == Some(e) {
      ResolvesToNode(document, chunks, i, r.value.source);
      ResolvesToNode(document, chunks, i, r.value.target);
    } else {
      ChunkEdgesResolve(document, chunks, i, n - 1, normal, e);
    }
  }

  lemma {:induction false} EdgesResolve(document: string, chunks: seq<Chunk>, n: nat, normal: string -> string, e: Edge)
    requires n <= |chunks| && e in Edges(document, chunks, n, normal)
    ensures EndpointsResolve(document, chunks, e)
    decreases n
  {
    hide EndpointsResolve, Projected, EdgesOfChunk;
    if Projected(chunks[n - 1]) && e in EdgesOfChunk(document, chunks, n - 1, |chunks[n - 1].relationships|, normal) {
      ChunkEdgesResolve(document, chunks, n - 1, |chunks[n - 1].relationships|, normal, e);
    } else {
      EdgesResolve(document, chunks, n - 1, normal, e);
    }
  }

  lemma {:induction false} EndpointsAreAdded(refs: map<string, string>, document: string, edges: seq<Edge>, id: string)
    ensures id in AddEndpoints(refs, document, edges) <==>
              || id in refs
              || ("ref:" <= id && exists i :: 0 <= i < |edges| && (edges[i].source == id || edges[i].target == id))
    decreases |edges|
  {
    hide ReferenceValue;
    if edges != [] {
      EndpointsAreAdded(refs, document, edges[..|edges| - 1], id);
    }
  }

  /** Every relationship leads from an emitted node to an emitted node. */
  lemma ProjectionIsClosed(document: string, chunks: seq<Chunk>, normal: string -> string, i: nat)
    requires i < |Edges(document, chunks, |chunks|, normal)|
    ensures var edges := Edges(document, chunks, |chunks|, normal);
            var refs := AddEndpoints(ReferencesOfChunks(document, chunks, |chunks|), document, edges);
            && (IsChunkNode(document, chunks, edges[i].source) || edges[i].source in refs)
            && (IsChunkNode(document, chunks, edges[i].target) || edges[i].target in refs)
  {
    hide IsChunkNode, Edges, AddEndpoints, ReferencesOfChunks;
    var edges := Edges(document, chunks, |chunks|, normal);
    EdgesResolve(document, chunks, |chunks|, normal, edges[i]);
    EndpointsAreAdded(ReferencesOfChunks(document, chunks, |chunks|), document, edges, edges[i].source);
    EndpointsAreAdded(ReferencesOfChunks(document, chunks, |chunks|), document, edges, edges[i].target);
  }

  lemma {:induction false} ListedReferences(refs: map<string, string>, document: string, references: seq<string>,
                                            id: string)
    ensures id in AddReferences(refs, document, references) <==>
              id in refs || exists k :: 0 <= k < |references| && ReferenceId(document, references[k]) == id
    decreases |references|
  {
    hide ReferenceId;
    if references != [] {
      ListedReferences(refs, document, references[..|references| - 1], id);
    }
  }

  /** The chunk is projected and lists a reference of that id. */
  predicate Lists(document: string, chunks: seq<Chunk>, j: int, id: string) {
    && 0 <= j < |chunks| && Projected(chunks[j])
    && exists k :: 0 <= k < |chunks[j].references| && ReferenceId(document, chunks[j].references[k]) == id
  }

  lemma {:induction false} ReferenceNodesAreListed(document: string, chunks: seq<Chunk>, n: nat, id: string)
    requires n <= |chunks|
    ensures id in ReferencesOfChunks(document, chunks, n) <==> exists j :: 0 <= j < n && Lists(document, chunks, j, id)
    decreases n
  {
    hide ReferenceId, Projected, AddReferences;
    if n > 0 {
      ReferenceNodesAreListed(document, chunks, n - 1, id);
      ListedReferences(ReferencesOfChunks(document, chunks, n - 1), document, chunks[n - 1].references, id);
      var last := Lists(document, chunks, n - 1, id);
    }
  }

  /** The reference nodes are those that a projected chunk lists or a relationship leads to. */
  lemma ReferenceNodesExactly(document: string, chunks: seq<Chunk>, normal: string -> string, id: string)
    ensures var edges := Edges(document, chunks, |chunks|, normal);
            id in AddEndpoints(ReferencesOfChunks(document, chunks, |chunks|), document, edges) <==>
              || (exists j :: 0 <= j < |chunks| && Lists(document, chunks, j, id))
              || ("ref:" <= id && exists i :: 0 <= i < |edges| && (edges[i].source == id || edges[i].target == id))
    ensures id in AddEndpoints(ReferencesOfChunks(document, chunks, |chunks|), document,
                               Edges(document, chunks, |chunks|, normal)) ==>
              "ref:" <= id
  {
    hide Lists, Edges, AddEndpoints, ReferencesOfChunks;
    EndpointsAreAdded(ReferencesOfChunks(document, chunks, |chunks|), document,
                      Edges(document, chunks, |chunks|, normal), id);
    ReferenceNodesAreListed(document, chunks, |chunks|, id);
    if exists j :: 0 <= j < |chunks| && Lists(document, chunks, j, id) {
      var j :| 0 <= j < |chunks| && Lists(document, chunks, j, id);
      ListedIsReference(document, chunks, j, id);
    }
  }

  lemma ListedIsReference(document: string, chunks: seq<Chunk>, j: nat, id: string)
    requires Lists(document, chunks, j, id)
    ensures "ref:" <= id
  {
    hide Strip, Projected;
  }

  /** A chunk that may not be projected leaves no trace: it has no node, and no relationship begins or ends
      at it. */
  lemma BlockedChunkIsAbsent(document: string, chunks: seq<Chunk>, normal: string -> string, b: nat)
    requires DistinctIds(chunks) && b < |chunks| && chunks[b].policy.Some?
    requires !chunks[b].policy.value.projectGraph || chunks[b].policy.value.confidence == Blocked
    ensures var id := NodeId(document, chunks[b].id);
            var edges := Edges(document, chunks, |chunks|, normal);
            && (forall node :: node in ChunkNodes(document, chunks, |chunks|) ==> node.id != id)
            && id !in AddEndpoints(ReferencesOfChunks(document, chunks, |chunks|), document, edges)
            && forall i :: 0 <= i < |edges| ==> edges[i].source != id && edges[i].target != id
  {
    assert !Projected(chunks[b]);
    hide Projected, Edges, AddEndpoints, ReferencesOfChunks, ChunkNodes, NodeId, DistinctIds;
    var id := NodeId(document, chunks[b].id);
    var edges := Edges(document, chunks, |chunks|, normal);
    BlockedHasNoNode(document, chunks, b);
    NodeIsNoReference(document, chunks[b].id);
    ReferenceNodesExactly(document, chunks, normal, id);
    forall node | node in ChunkNodes(document, chunks, |chunks|)
      ensures node.id != id
    {
      NodesAreProjected(document, chunks, |chunks|, node);
    }
    forall i | 0 <= i < |edges|
      ensures edges[i].source != id && edges[i].target != id
    {
      EdgesResolve(document, chunks, |chunks|, normal, edges[i]);
    }
  }

  lemma BlockedHasNoNode(document: string, chunks: seq<Chunk>, b: nat)
    requires DistinctIds(chunks) && b < |chunks| && !Projected(chunks[b])
    ensures !IsChunkNode(document, chunks, NodeId(document, chunks[b].id))
  {
    hide Projected;
    forall j | 0 <= j < |chunks| && Projected(chunks[j])
      ensures NodeId(document, chunks[j].id) != NodeId(document, chunks[b].id)
    {
      DifferentNodes(document, chunks[j].id, chunks[b].id);
    }
  }

  lemma NodeIsNoReference(document: string, chunkId: string)
    ensures !("ref:" <= NodeId(document, chunkId))
  {
    assert NodeId(document, chunkId)[0] == 'c';
  }

  /** A reference that is blocked or quarantined, or a parser warning that blocks, keeps the whole chunk out
      of the graph. */
  lemma BlockedReferenceKeepsChunkOut(document: string, chunks: seq<Chunk>, normal: string -> string, b: nat,
                                      findings: seq<Option<Finding>>, records: seq<Option<Policy>>,
                                      warnings: seq<Warning>, fold: string -> string)
    requires DistinctIds(chunks) && b < |chunks| && |records| == |findings|
    requires forall i :: 0 <= i < |records| ==>
               records[i] == match findings[i] case None => None case Some(f) => Some(ReferencePolicy(f))
    requires chunks[b].policy == AfterParser(ChunkPolicy(records), warnings, fold)
    requires || AnyBlocks(warnings, fold)
             || exists i :: 0 <= i < |findings| && findings[i].Some? && BlocksReference(findings[i].value.action)
    ensures var id := NodeId(document, chunks[b].id);
            var edges := Edges(document, chunks, |chunks|, normal);
            && (forall node :: node in ChunkNodes(document, chunks, |chunks|) ==> node.id != id)
            && forall i :: 0 <= i < |edges| ==> edges[i].source != id && edges[i].target != id
  {
    hide NodeId, DistinctIds, AfterParser, ChunkPolicy, ReferencePolicy, BlocksReference, Edges, ChunkNodes;
    ChunkIsProjected(findings, records, warnings, fold);
    BlockedChunkIsAbsent(document, chunks, normal, b);
  }

  ghost predicate DistinctNodeIds(nodes: seq<ChunkNode>) {
    forall i, j :: 0 <= i < j < |nodes| ==> nodes[i].id != nodes[j].id
  }

  /** With distinct chunk ids no two chunk nodes share an id. */
  lemma {:induction false} NodeIdsAreDistinct(document: string, chunks: seq<Chunk>, n: nat)
    requires DistinctIds(chunks) && n <= |chunks|
    ensures DistinctNodeIds(ChunkNodes(document, chunks, n))
    decreases n
  {
    hide Projected, NodeId;
    if n > 0 {
      NodeIdsAreDistinct(document, chunks, n - 1);
      var before := ChunkNodes(document, chunks, n - 1);
      forall i | 0 <= i < |before|
        ensures before[i].id != NodeId(document, chunks[n - 1].id)
      {
        NodesAreProjected(document, chunks, n - 1, before[i]);
        var j :| 0 <= j < n - 1 &&
            before[i] == ChunkNode(NodeId(document, chunks[j].id), chunks[j].id, chunks[j].references);
        DifferentNodes(document, chunks[j].id, chunks[n - 1].id);
      }
    }
  }

  /** A name means another chunk only if that chunk is projected, bears the name and is the only one. */
  lemma ResolvesToOnlyBearer(document: string, chunks: seq<Chunk>, i: nat, k: nat, value: string)
    requires DistinctIds(chunks) && i < |chunks| && k < |chunks| && value != ""
    ensures Resolve(document, chunks, i, value) == NodeId(document, chunks[k].id) <==>
              && Bears(chunks, k, value)
              && (k == i || (!Bears(chunks, i, value) && forall j :: Bears(chunks, j, value) ==> j == k))
  {
    hide Aliases, Projected, NodeId, ReferenceId;
    var all := Bearers(document, chunks, |chunks|, value);
    var id := NodeId(document, chunks[k].id);
    NodeIsNoReference(document, chunks[k].id);
    NodeIsNotEmpty(document, chunks[k].id);
    ReferenceIsReference(document, value);
    forall j | 0 <= j < |chunks| && j != k
      ensures NodeId(document, chunks[j].id) != id
    {
      DifferentNodes(document, chunks[j].id, chunks[k].id);
    }
    forall j | Bears(chunks, j, value)
      ensures NodeId(document, chunks[j].id) in all
    {
    }
    if Bears(chunks, k, value) && forall j :: Bears(chunks, j, value) ==> j == k {
      assert all == {id};
    }
  }

  lemma NodeIsNotEmpty(document: string, chunkId: string)
    ensures NodeId(document, chunkId) != ""
  {
    assert NodeId(document, chunkId)[0] == 'c';
  }

  lemma ReferenceIsReference(document: string, reference: string)
    ensures "ref:" <= ReferenceId(document, reference)
  {
    hide Strip;
  }

  // ----- the names of nodes

  /** The number a string of digits stands for. */
  ghost function NumberOf(digits: string): nat
    requires forall i :: 0 <= i < |digits| ==> '0' <= digits[i] <= '9'
  {
    if digits == "" then 0
    else NumberOf(digits[..|digits| - 1]) * 10 + (digits[|digits| - 1] as int - '0' as int)
  }

  /** Decimal numerals are digits, read as the number, and have no leading zero. */
  lemma {:induction false} DecimalTells(n: nat)
    ensures forall i :: 0 <= i < |Decimal(n)| ==> '0' <= Decimal(n)[i] <= '9'
    ensures NumberOf(Decimal(n)) == n
    ensures Decimal(n) != "" && (Decimal(n)[0] == '0' <==> n == 0)
    decreases n
  {
    if n < 10 {
      var c := ('0' as int + n) as char;
      assert Decimal(n) == [c] && [c][..0] == "";
      assert NumberOf([c]) == NumberOf("") * 10 + n;
    } else {
      DecimalTells(n / 10);
      var front, c := Decimal(n / 10), ('0' as int + n % 10) as char;
      assert Decimal(n) == front + [c] && (front + [c])[..|front|] == front;
      assert NumberOf(front + [c]) == NumberOf(front) * 10 + n % 10;
    }
  }

  /** The names of a chunk: its place, its id and the ids it had elsewhere, and the old common name if one of its
      relationships uses it. */
  lemma AliasesTell(c: Chunk, index: nat, name: string)
    ensures name in Aliases(c, index) <==>
              || name == "chunk:" + Decimal(index) || name == "chunk:" + c.id
              || (c.runtimeSource != "" && name == "chunk:" + c.runtimeSource)
              || (c.sourceId != "" && name == "chunk:" + c.sourceId)
              || (name == "chunk:legacy"
                  && exists i :: 0 <= i < |c.relationships| && UsesName(c.relationships[i], "chunk:legacy"))
  {
    if i :| 0 <= i < |c.relationships| && UsesName(c.relationships[i], "chunk:legacy") {
      assert IsLegacy(c.relationships[i]);
    }
    if i :| 0 <= i < |c.relationships| && IsLegacy(c.relationships[i]) {
      assert UsesName(c.relationships[i], "chunk:legacy");
    }
  }

  /** The relationship leads from or to this name. */
  ghost predicate UsesName(r: Option<Relationship>, name: string) {
    r.Some? && name in {r.value.source, r.value.target}
  }

  /** The id of a reference names the document and the reference without surrounding space and without a prefix,
      so writing the prefix or not makes no difference; and the reference can be read back from it. */
  lemma ReferenceIdTells(document: string, reference: string, bare: string)
    requires (Strip(reference) == bare && !("ref:" <= bare)) || Strip(reference) == "ref:" + bare
    ensures ReferenceId(document, reference) == "ref:" + document + ":" + bare
    ensures ReferenceValue(ReferenceId(document, reference), document) == bare
  {
    hide Strip;
    assert "ref:" <= "ref:" + bare && ("ref:" + bare)[4..] == bare;
    var prefix := "ref:" + document + ":";
    assert (prefix + bare)[|prefix|..] == bare;
  }

  /** What a name means in chunk number `i`: the chunk itself if that bears it; otherwise the one node that
      bears it, if there is just one; otherwise a reference, unless it is the name of a chunk. */
  ghost predicate Means(document: string, chunks: seq<Chunk>, i: int, name: string, id: string) {
    && name != ""
    && if Bears(chunks, i, name) then id == NodeId(document, chunks[i].id)
       else if OneBearer(document, chunks, name) then
         exists j :: Bears(chunks, j, name) && id == NodeId(document, chunks[j].id)
       else id == ReferenceId(document, name) && ("chunk:" <= name ==> "ref:" <= name)
  }

  /** Some projected chunk bears the name, and all that do have the same node. */
  ghost predicate OneBearer(document: string, chunks: seq<Chunk>, name: string) {
    && (exists j :: Bears(chunks, j, name))
    && forall j, k :: Bears(chunks, j, name) && Bears(chunks, k, name) ==>
         NodeId(document, chunks[j].id) == NodeId(document, chunks[k].id)
  }

  lemma OneBearerIsOne(document: string, chunks: seq<Chunk>, name: string)
    ensures OneBearer(document, chunks, name) <==> |Bearers(document, chunks, |chunks|, name)| == 1
    ensures OneBearer(document, chunks, name) ==>
              exists j :: Bears(chunks, j, name)
                          && Bearers(document, chunks, |chunks|, name) == {NodeId(document, chunks[j].id)}
  {
    hide NodeId, Aliases, Projected;
    var all := Bearers(document, chunks, |chunks|, name);
    if OneBearer(document, chunks, name) {
      var j :| Bears(chunks, j, name);
      assert NodeId(document, chunks[j].id) in all;
      assert all == {NodeId(document, chunks[j].id)};
    }
    if |all| == 1 {
      var only := Only(all);
      assert only in all;
      forall j | Bears(chunks, j, name)
        ensures NodeId(document, chunks[j].id) == only
      {
        assert NodeId(document, chunks[j].id) in all;
      }
    }
  }

  /** A name resolves to what it means, and to nothing if it means nothing. */
  lemma ResolveTells(document: string, chunks: seq<Chunk>, i: nat, name: string, id: string)
    requires i < |chunks| && id != ""
    ensures Resolve(document, chunks, i, name) == id <==> Means(document, chunks, i, name, id)
  {
    hide NodeId, Aliases, Projected, ReferenceId, Bearers, Only;
    OneBearerIsOne(document, chunks, name);
    if OneBearer(document, chunks, name) {
      var j :| Bears(chunks, j, name) && Bearers(document, chunks, |chunks|, name) == {NodeId(document, chunks[j].id)};
      assert Only({NodeId(document, chunks[j].id)}) in {NodeId(document, chunks[j].id)};
      forall k | Bears(chunks, k, name)
        ensures NodeId(document, chunks[k].id) == NodeId(document, chunks[j].id)
      {
      }
    }
  }

  /** The type of a relationship, related where it has none, is kept when some chunk declares it or none
      declares any; otherwise it is related. */
  lemma EdgeTypeTells(chunks: seq<Chunk>, kind: string, normal: string -> string)
    ensures var own := if kind == "" then normal("RELATED") else normal(kind);
            var kept := (forall c :: c in chunks ==> c.edgeTypes == [])
                        || (exists c, t :: c in chunks && t in c.edgeTypes && normal(t) == own);
            EdgeType(chunks, kind, normal) == if kept then own else "RELATED"
  {
    var own := if kind == "" then normal("RELATED") else normal(kind);
    var declared := DeclaredTypes(chunks, normal);
    if c :| c in chunks && c.edgeTypes != [] {
      assert c.edgeTypes[0] in c.edgeTypes;
      assert normal(c.edgeTypes[0]) in declared;
    } else {
      assert declared == {};
    }
  }

  // ----- which relationships are emitted

  /** Relationship number `k` of chunk number `i` yields this edge: the chunk is projected, both names mean
      something, and the edge leads from what the source means to what the target means. */
  ghost predicate Yields(document: string, chunks: seq<Chunk>, i: int, k: int, normal: string -> string, e: Edge) {
    && 0 <= i < |chunks| && Projected(chunks[i])
    && 0 <= k < |chunks[i].relationships| && chunks[i].relationships[k].Some?
    && var r := chunks[i].relationships[k].value;
       && e.source != "" && Means(document, chunks, i, r.source, e.source)
       && e.target != "" && Means(document, chunks, i, r.target, e.target)
       && e.kind == EdgeType(chunks, r.kind, normal) && e.evidence == r.evidence
  }

  lemma YieldsIsEdge(document: string, chunks: seq<Chunk>, i: nat, k: nat, normal: string -> string, e: Edge)
    requires i < |chunks| && k < |chunks[i].relationships|
    ensures Yields(document, chunks, i, k, normal, e) <==>
              Projected(chunks[i]) && EdgeOf(document, chunks, i, chunks[i].relationships[k], normal) == Some(e)
  {
    hide Projected, Resolve, Means, EdgeType;
    var r := chunks[i].relationships[k];
    if r.Some? {
      if e.source != "" {
        ResolveTells(document, chunks, i, r.value.source, e.source);
      }
      if e.target != "" {
        ResolveTells(document, chunks, i, r.value.target, e.target);
      }
    }
  }

  /** How many edges stand before those of relationship number `k` of chunk number `i`. */
  ghost function PlaceOf(document: string, chunks: seq<Chunk>, i: nat, k: nat, normal: string -> string): nat
    requires i < |chunks| && k <= |chunks[i].relationships|
  {
    |Edges(document, chunks, i, normal)| + |EdgesOfChunk(document, chunks, i, k, normal)|
  }

  lemma {:induction false} EdgeOfChunkComesFrom(document: string, chunks: seq<Chunk>, i: nat, n: nat,
                                                normal: string -> string, a: nat) returns (k: nat)
    requires i < |chunks| && n <= |chunks[i].relationships| && a < |EdgesOfChunk(document, chunks, i, n, normal)|
    ensures k < n && a == |EdgesOfChunk(document, chunks, i, k, normal)|
    ensures EdgeOf(document, chunks, i, chunks[i].relationships[k], normal) ==
              Some(EdgesOfChunk(document, chunks, i, n, normal)[a])
    decreases n
  {
    hide EdgeOf;
    if a < |EdgesOfChunk(document, chunks, i, n - 1, normal)| {
      k := EdgeOfChunkComesFrom(document, chunks, i, n - 1, normal, a);
    } else {
      k := n - 1;
    }
  }

  /** Every edge comes from one relationship that yields it, and edges stand in the order of those. */
  lemma {:induction false} EdgeComesFrom(document: string, chunks: seq<Chunk>, n: nat, normal: string -> string,
                                         a: nat) returns (i: nat, k: nat)
    requires n <= |chunks| && a < |Edges(document, chunks, n, normal)|
    ensures i < n && k < |chunks[i].relationships| && a == PlaceOf(document, chunks, i, k, normal)
    ensures Yields(document, chunks, i, k, normal, Edges(document, chunks, n, normal)[a])
    decreases n
  {
    hide Projected, EdgesOfChunk, Yields;
    var before := Edges(document, chunks, n - 1, normal);
    if a < |before| {
      i, k := EdgeComesFrom(document, chunks, n - 1, normal, a);
    } else {
      i := n - 1;
      k := EdgeOfChunkComesFrom(document, chunks, i, |chunks[i].relationships|, normal, a - |before|);
      YieldsIsEdge(document, chunks, i, k, normal, Edges(document, chunks, n, normal)[a]);
    }
  }

  lemma {:induction false} EdgeOfChunkIsThere(document: string, chunks: seq<Chunk>, i: nat, k: nat, n: nat,
                                              normal: string -> string, e: Edge)
    requires i < |chunks| && k < n <= |chunks[i].relationships|
    requires EdgeOf(document, chunks, i, chunks[i].relationships[k], normal) == Some(e)
    ensures var place := |EdgesOfChunk(document, chunks, i, k, normal)|;
            place < |EdgesOfChunk(document, chunks, i, n, normal)| &&
                EdgesOfChunk(document, chunks, i, n, normal)[place] == e
    decreases n
  {
    hide EdgeOf;
    if k < n - 1 {
      EdgeOfChunkIsThere(document, chunks, i, k, n - 1, normal, e);
    }
  }

  lemma YieldsIsProjected(document: string, chunks: seq<Chunk>, i: int, k: int, normal: string -> string, e: Edge)
    requires Yields(document, chunks, i, k, normal, e)
    ensures 0 <= i < |chunks| && Projected(chunks[i]) && 0 <= k < |chunks[i].relationships|
  {
  }

  lemma EdgesGrow(document: string, chunks: seq<Chunk>, n: nat, normal: string -> string)
    requires 0 < n <= |chunks|
    ensures Edges(document, chunks, n - 1, normal) <= Edges(document, chunks, n, normal)
    ensures Projected(chunks[n - 1]) ==>
              Edges(document, chunks, n, normal) ==
              Edges(document, chunks, n - 1, normal)
              + EdgesOfChunk(document, chunks, n - 1, |chunks[n - 1].relationships|, normal)
  {
    hide Projected, EdgesOfChunk;
  }

  lemma {:induction false} EmittedAt(document: string, chunks: seq<Chunk>, i: nat, k: nat, n: nat,
                                     normal: string -> string, e: Edge)
    requires i < n <= |chunks| && Projected(chunks[i]) && k < |chunks[i].relationships|
    requires EdgeOf(document, chunks, i, chunks[i].relationships[k], normal) == Some(e)
    ensures PlaceOf(document, chunks, i, k, normal) < |Edges(document, chunks, n, normal)|
    ensures Edges(document, chunks, n, normal)[PlaceOf(document, chunks, i, k, normal)] == e
    decreases n
  {
    hide Projected, EdgesOfChunk, EdgeOf, Edges;
    EdgesGrow(document, chunks, n, normal);
    if i < n - 1 {
      EmittedAt(document, chunks, i, k, n - 1, normal, e);
    } else {
      EdgeOfChunkIsThere(document, chunks, i, k, |chunks[i].relationships|, normal, e);
    }
  }

  /** Every relationship that yields an edge is emitted, at its place. */
  lemma YieldedIsEmitted(document: string, chunks: seq<Chunk>, i: nat, k: nat, n: nat, normal: string -> string,
                         e: Edge)
    requires i < n <= |chunks| && Yields(document, chunks, i, k, normal, e)
    ensures PlaceOf(document, chunks, i, k, normal) < |Edges(document, chunks, n, normal)|
    ensures Edges(document, chunks, n, normal)[PlaceOf(document, chunks, i, k, normal)] == e
  {
    YieldsIsProjected(document, chunks, i, k, normal, e);
    YieldsIsEdge(document, chunks, i, k, normal, e);
    hide Projected, EdgesOfChunk, EdgeOf, Yields, PlaceOf, Edges;
    EmittedAt(document, chunks, i, k, n, normal, e);
  }

  // ----- what a reference node says

  /** The text of a reference node: that of a reference of this id that a projected chunk lists; where none
      does, what stands behind the prefix of the id. */
  lemma {:induction false} ReferenceTexts(refs: map<string, string>, document: string, references: seq<string>,
                                          id: string)
    ensures id in refs ==> id in AddReferences(refs, document, references)
                           && AddReferences(refs, document, references)[id] == refs[id]
    ensures id !in refs && id in AddReferences(refs, document, references) ==>
              exists k :: 0 <= k < |references| && FirstOf(document, references, k, id)
                          && AddReferences(refs, document, references)[id] == references[k]
    decreases |references|
  {
    hide ReferenceId;
    if references != [] {
      var init := references[..|references| - 1];
      ReferenceTexts(refs, document, init, id);
      ListedReferences(refs, document, init, id);
      if id !in refs && id in AddReferences(refs, document, references) {
        if id in AddReferences(refs, document, init) {
          var k :| 0 <= k < |init| && FirstOf(document, init, k, id)
                   && AddReferences(refs, document, init)[id] == init[k];
          assert FirstOf(document, references, k, id);
        } else {
          assert FirstOf(document, references, |references| - 1, id);
        }
      }
    }
  }

  /** Reference number `k` is the first of the list with this id. */
  ghost predicate FirstOf(document: string, references: seq<string>, k: int, id: string) {
    && 0 <= k < |references| && ReferenceId(document, references[k]) == id
    && forall l :: 0 <= l < k ==> ReferenceId(document, references[l]) != id
  }

  /** The first chunk that lists the reference says its text. */
  lemma {:induction false} ListedText(document: string, chunks: seq<Chunk>, n: nat, id: string) returns (j: nat, k: nat)
    requires n <= |chunks| && id in ReferencesOfChunks(document, chunks, n)
    ensures j < n && Projected(chunks[j]) && FirstOf(document, chunks[j].references, k, id)
    ensures ReferencesOfChunks(document, chunks, n)[id] == chunks[j].references[k]
    ensures forall i :: 0 <= i < j ==> !Lists(document, chunks, i, id)
    decreases n
  {
    hide ReferenceId, Projected, AddReferences;
    var before := ReferencesOfChunks(document, chunks, n - 1);
    ReferenceTexts(before, document, chunks[n - 1].references, id);
    if id in before {
      j, k := ListedText(document, chunks, n - 1, id);
    } else {
      ReferenceNodesAreListed(document, chunks, n - 1, id);
      j := n - 1;
      k :| 0 <= k < |chunks[j].references| && FirstOf(document, chunks[j].references, k, id)
           && ReferencesOfChunks(document, chunks, n)[id] == chunks[j].references[k];
    }
  }

  /** Relationships never change the text of a reference that is listed, and give the others the text behind
      the prefix. */
  lemma {:induction false} EndpointText(refs: map<string, string>, document: string, edges: seq<Edge>, id: string)
    requires id in AddEndpoints(refs, document, edges)
    ensures AddEndpoints(refs, document, edges)[id] == if id in refs then refs[id] else ReferenceValue(id, document)
    decreases |edges|
  {
    hide ReferenceValue;
    if edges != [] && id in AddEndpoints(refs, document, edges[..|edges| - 1]) {
      EndpointText(refs, document, edges[..|edges| - 1], id);
    } else if edges != [] {
      EndpointsAreAdded(refs, document, edges[..|edges| - 1], id);
    }
  }
}
