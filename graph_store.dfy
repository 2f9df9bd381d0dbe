/** The knowledge-graph writes of graphcreation.py (`create_neo4j_nodes`,
    `create_neo4j_relationships`, `process_text_and_build_graph`), with the graph
    database's MERGE/MATCH semantics modelled as an in-memory graph. */
module GraphStore {
  import opened Outcomes
  import opened EntityExtraction
  import opened RelationExtraction

  /** A stored `RELATED_TO` relationship from `src` to `dst` with its `type` property. */
  datatype Edge = Edge(src: Entity, dst: Entity, relType: string)

  /** `str.upper` on one character, ASCII letters only. */
  function UpperChar(c: char): char {
    if 'a' <= c <= 'z' then (c as int - 32) as char else c
  }

  /** `s.upper()`, ASCII letters only. */
  function Upper(s: string): string {
    seq(|s|, k requires 0 <= k < |s| => UpperChar(s[k]))
  }

  /** `s.replace(" ", "_")`. */
  function SpacesToUnderscores(s: string): string {
    seq(|s|, k requires 0 <= k < |s| => if s[k] == ' ' then '_' else s[k])
  }

  /** A relationship type as stored: no space and no lower-case ASCII letter. */
  predicate IsNormalized(s: string) {
    forall k :: 0 <= k < |s| ==> s[k] != ' ' && !('a' <= s[k] <= 'z')
  }

  /** `relation.upper().replace(" ", "_")`. */
  function NormalizeRelation(relation: string): (r: string)
    ensures |r| == |relation|
    ensures IsNormalized(r)
    ensures forall k :: 0 <= k < |relation| && relation[k] == ' ' ==> r[k] == '_'
    ensures forall k :: 0 <= k < |relation| && 'a' <= relation[k] <= 'z' ==> r[k] as int == relation[k] as int - 32
    ensures forall k :: 0 <= k < |relation| && relation[k] != ' ' && !('a' <= relation[k] <= 'z') ==> r[k] == relation[k]
  {
    SpacesToUnderscores(Upper(relation))
  }

  /** A type is left unchanged by normalisation exactly when it is already normalised. */
  lemma NormalizeFixpoint(s: string)
    ensures NormalizeRelation(s) == s <==> IsNormalized(s)
  {
    if IsNormalized(s) {
      assert forall k :: 0 <= k < |s| ==> NormalizeRelation(s)[k] == s[k];
    }
  }

  /** Normalising twice is normalising once. */
  lemma NormalizeIdempotent(s: string)
    ensures NormalizeRelation(NormalizeRelation(s)) == NormalizeRelation(s)
  {
    NormalizeFixpoint(NormalizeRelation(s));
  }

  /** The edges one MATCH ... MERGE statement writes for triple `t`: one between
      every node named like the subject and every node named like the object,
      whatever their labels; none when either name has no node. */
  function MatchedEdges(nodes: set<Entity>, t: Triple): set<Edge> {
    set n1, n2 | n1 in nodes && n2 in nodes && n1.name == t.subj.name && n2.name == t.obj.name
      :: Edge(n1, n2, NormalizeRelation(t.relation))
  }

  /** The edges written for a list of triples. */
  function RelationshipEdges(nodes: set<Entity>, rels: seq<Triple>): set<Edge>
    decreases |rels|
  {
    if rels == [] then {}
    else RelationshipEdges(nodes, rels[..|rels| - 1]) + MatchedEdges(nodes, rels[|rels| - 1])
  }

  /** No edge is written for a triple exactly when one of its names matches no node. */
  lemma MatchedEdgesEmptyIff(nodes: set<Entity>, t: Triple)
    ensures MatchedEdges(nodes, t) == {}
        <==> (forall n :: n in nodes ==> n.name != t.subj.name) || (forall n :: n in nodes ==> n.name != t.obj.name)
  {
    if !((forall n :: n in nodes ==> n.name != t.subj.name) || (forall n :: n in nodes ==> n.name != t.obj.name)) {
      var n1 :| n1 in nodes && n1.name == t.subj.name;
      var n2 :| n2 in nodes && n2.name == t.obj.name;
      assert Edge(n1, n2, NormalizeRelation(t.relation)) in MatchedEdges(nodes, t);
    }
  }

  /** An edge is written for a list exactly when it is written for one of its triples. */
  lemma {:induction false} RelationshipEdgesMem(nodes: set<Entity>, rels: seq<Triple>, e: Edge)
    ensures e in RelationshipEdges(nodes, rels)
        <==> exists k :: 0 <= k < |rels| && e in MatchedEdges(nodes, rels[k])
    decreases |rels|
  {
    if rels != [] {
      var init := rels[..|rels| - 1];
      RelationshipEdgesMem(nodes, init, e);
      if exists k :: 0 <= k < |init| && e in MatchedEdges(nodes, init[k]) {
        var k :| 0 <= k < |init| && e in MatchedEdges(nodes, init[k]);
        assert rels[k] == init[k];
      }
      if exists k :: 0 <= k < |rels| && e in MatchedEdges(nodes, rels[k]) {
        var k :| 0 <= k < |rels| && e in MatchedEdges(nodes, rels[k]);
        if k < |init| {
          assert init[k] == rels[k];
        }
      }
    }
  }

  /** Writing two lists writes the union of their edges, so order does not matter
      and writing a list twice (`rels + rels`) writes no more than writing it once. */
  lemma {:induction false} RelationshipEdgesAppend(nodes: set<Entity>, a: seq<Triple>, b: seq<Triple>)
    ensures RelationshipEdges(nodes, a + b) == RelationshipEdges(nodes, a) + RelationshipEdges(nodes, b)
    decreases |b|
  {
    if b == [] {
      assert a + b == a;
    } else {
      var init := b[..|b| - 1];
      assert (a + b)[..|a + b| - 1] == a + init;
      assert (a + b)[|a + b| - 1] == b[|b| - 1];
      RelationshipEdgesAppend(nodes, a, init);
    }
  }

  /** A run interrupted after the first `k` relationship writes, then rerun in
      full, leaves the same edges as one uninterrupted run. */
  lemma RerunAfterInterruption(nodes: set<Entity>, edges: set<Edge>, rels: seq<Triple>, k: nat)
    requires k <= |rels|
    ensures edges + RelationshipEdges(nodes, rels[..k]) + RelationshipEdges(nodes, rels)
         == edges + RelationshipEdges(nodes, rels)
  {
    assert rels == rels[..k] + rels[k..];
    RelationshipEdgesAppend(nodes, rels[..k], rels[k..]);
  }

  /** The graph database: `Entity` nodes keyed by (name, label) and `RELATED_TO`
      relationships keyed by their endpoints and their `type` property. */
  class KnowledgeGraph {
    var nodes: set<Entity>
    var edges: set<Edge>

    /** Every relationship joins two stored nodes. */
    ghost predicate Valid()
      reads this
    {
      forall e :: e in edges ==> e.src in nodes && e.dst in nodes
    }

    constructor ()
      ensures Valid() && nodes == {} && edges == {}
    {
      nodes, edges := {}, {};
    }

    /** `create_neo4j_nodes`: `MERGE (e:Entity {name: $entity, label: $label})`
        for each entity; a node already present is matched, not duplicated. */
    method CreateNodes(entities: seq<Entity>)
      requires Valid()
      modifies this
      ensures Valid()
      ensures nodes == old(nodes) + set e | e in entities
      ensures edges == old(edges)
    {
      for i := 0 to |entities|
        invariant Valid()
        invariant nodes == old(nodes) + set e | e in entities[..i]
        invariant edges == old(edges)
      {
        nodes := nodes + {entities[i]};
        assert entities[..i + 1] == entities[..i] + [entities[i]];
      }
      assert entities[..|entities|] == entities;
    }

    /** `create_neo4j_relationships`: for each triple, MATCH the nodes named like
        its two entities and MERGE a relationship of the normalised type between
        every such pair. */
    method CreateRelationships(relationships: seq<Triple>)
      requires Valid()
      modifies this
      ensures Valid()
      ensures nodes == old(nodes)
      ensures edges == old(edges) + RelationshipEdges(nodes, relationships)
    {
      for i := 0 to |relationships|
        invariant Valid()
        invariant nodes == old(nodes)
        invariant edges == old(edges) + RelationshipEdges(nodes, relationships[..i])
      {
        edges := edges + MatchedEdges(nodes, relationships[i]);
        assert relationships[..i + 1][..i] == relationships[..i];
      }
      assert relationships[..|relationships|] == relationships;
    }
  }

  /** How a build ends: the recognizer or the parser may raise. */
  datatype BuildStatus = Built | RecognizerFailed(message: string) | ParserFailed(message: string)

  /** `process_text_and_build_graph(text)`, given what the recognizer and the
      dependency parser return for `text`: entities first, then relations over
      the same entity list, then all node writes, then all relationship writes.
      A failing capability aborts the build before anything is written. */
  method ProcessTextAndBuildGraph(g: KnowledgeGraph, recognized: Result<seq<NerRecord>>, parsed: Result<seq<Sentence>>)
    returns (status: BuildStatus)
    requires g.Valid()
    modifies g
    ensures g.Valid()
    ensures status == Built <==> recognized.Ok? && parsed.Ok?
    ensures recognized.Err? ==> status == RecognizerFailed(recognized.message)
    ensures recognized.Ok? && parsed.Err? ==> status == ParserFailed(parsed.message)
    ensures status != Built ==> g.nodes == old(g.nodes) && g.edges == old(g.edges)
    ensures status == Built ==>
      var entities := ExtractEntities(recognized.value);
      var relationships := Relations(parsed.value, entities);
      && g.nodes == old(g.nodes) + (set e | e in entities)
      && g.edges == old(g.edges) + RelationshipEdges(g.nodes, relationships)
      && forall t :: t in relationships ==> Edge(t.subj, t.obj, NormalizeRelation(t.relation)) in g.edges
  {
    if recognized.Err? {
      return RecognizerFailed(recognized.message);
    }
    var entities := ExtractEntities(recognized.value);
    if parsed.Err? {
      return ParserFailed(parsed.message);
    }
    var relationships := ExtractRelationships(parsed.value, entities);
    g.CreateNodes(entities);
    g.CreateRelationships(relationships);
    forall t | t in relationships
      ensures Edge(t.subj, t.obj, NormalizeRelation(t.relation)) in g.edges
    {
      RelationsSound(parsed.value, entities, t);
      var k :| 0 <= k < |relationships| && relationships[k] == t;
      assert Edge(t.subj, t.obj, NormalizeRelation(t.relation)) in MatchedEdges(g.nodes, relationships[k]);
      RelationshipEdgesMem(g.nodes, relationships, Edge(t.subj, t.obj, NormalizeRelation(t.relation)));
    }
    status := Built;
  }

  /** Building a second time from the same recognizer and parser output changes
      nothing: node and relationship writes are both merges, so two builds leave
      the graph exactly as one build does. */
  method BuildTwice(g: KnowledgeGraph, recognized: Result<seq<NerRecord>>, parsed: Result<seq<Sentence>>)
    returns (first: BuildStatus, second: BuildStatus)
    requires g.Valid()
    modifies g
    ensures g.Valid() && second == first
    ensures first == Built <==> recognized.Ok? && parsed.Ok?
    ensures first != Built ==> g.nodes == old(g.nodes) && g.edges == old(g.edges)
    ensures first == Built ==>
      var entities := ExtractEntities(recognized.value);
      && g.nodes == old(g.nodes) + (set e | e in entities)
      && g.edges == old(g.edges) + RelationshipEdges(g.nodes, Relations(parsed.value, entities))
  {
    first := ProcessTextAndBuildGraph(g, recognized, parsed);
    second := ProcessTextAndBuildGraph(g, recognized, parsed);
  }
}
