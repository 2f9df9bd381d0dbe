/** Relation extraction (graphcreation.py `extract_relationships`): a scan over the
    parsed sentences, the ordered pairs of entities found in each sentence and the
    sentence's tokens, emitting (entity, lemma, entity) triples. */
module RelationExtraction {
  import opened Strings
  import opened EntityExtraction

  /** A token of the dependency parse: its text, its lemma (`baseForm`) and its dependency role. */
  datatype Token = Token(text: string, baseForm: string, dep: string)

  /** A sentence of the dependency parse. */
  datatype Sentence = Sentence(text: string, tokens: seq<Token>)

  /** `(ent1, token.lemma_, ent2)`. */
  datatype Triple = Triple(subj: Entity, relation: string, obj: Entity)

  /** The dependency roles that mark a relation word: root verb, preposition, agent. */
  const RelationDeps: set<string> := {"ROOT", "prep", "agent"}

  /** The token test of the innermost loop. */
  predicate Fires(e1: Entity, e2: Entity, tok: Token) {
    tok.dep in RelationDeps && IsSubstring(e1.name, tok.text) && IsSubstring(e2.name, tok.text)
  }

  /** `[ent for ent in entities if ent[0] in sentence.text]`, in list order. */
  function SentenceEntities(text: string, entities: seq<Entity>): (r: seq<Entity>)
    ensures forall e :: e in r <==> e in entities && IsSubstring(e.name, text)
    ensures |r| <= |entities|
  {
    if entities == [] then []
    else
      assert entities == [entities[0]] + entities[1..];
      (if IsSubstring(entities[0].name, text) then [entities[0]] else [])
      + SentenceEntities(text, entities[1..])
  }

  /** The comprehension keeps list order and duplicates: filtering a concatenation
      is concatenating the filtered parts. */
  lemma {:induction false} SentenceEntitiesAppend(text: string, a: seq<Entity>, b: seq<Entity>)
    ensures SentenceEntities(text, a + b) == SentenceEntities(text, a) + SentenceEntities(text, b)
  {
    if a == [] {
      assert a + b == b;
    } else {
      var head := if IsSubstring(a[0].name, text) then [a[0]] else [];
      assert (a + b)[0] == a[0];
      assert (a + b)[1..] == a[1..] + b;
      assert SentenceEntities(text, a + b) == head + SentenceEntities(text, a[1..] + b);
      assert SentenceEntities(text, a) == head + SentenceEntities(text, a[1..]);
      SentenceEntitiesAppend(text, a[1..], b);
    }
  }

  /** The triples the token loop emits for the ordered pair (e1, e2) from the
      first `n` tokens, in token order. */
  function TokenTriples(e1: Entity, e2: Entity, toks: seq<Token>, n: nat): seq<Triple>
    requires n <= |toks|
  {
    if n == 0 then []
    else
      TokenTriples(e1, e2, toks, n - 1)
      + (if Fires(e1, e2, toks[n - 1]) then [Triple(e1, toks[n - 1].baseForm, e2)] else [])
  }

  /** The `ent2` loop for a fixed `ent1` over the first `n` sentence entities;
      pairs of equal entities are skipped. */
  function PairTriples(e1: Entity, sentEnts: seq<Entity>, n: nat, toks: seq<Token>): seq<Triple>
    requires n <= |sentEnts|
  {
    if n == 0 then []
    else
      PairTriples(e1, sentEnts, n - 1, toks)
      + (if e1 != sentEnts[n - 1] then TokenTriples(e1, sentEnts[n - 1], toks, |toks|) else [])
  }

  /** The `ent1` loop over the first `n` sentence entities, each paired with every
      sentence entity. */
  function SentenceBody(sentEnts: seq<Entity>, n: nat, toks: seq<Token>): seq<Triple>
    requires n <= |sentEnts|
  {
    if n == 0 then []
    else SentenceBody(sentEnts, n - 1, toks) + PairTriples(sentEnts[n - 1], sentEnts, |sentEnts|, toks)
  }

  /** The triples of one sentence; a sentence with at most one entity entry is skipped. */
  function SentenceTriples(s: Sentence, entities: seq<Entity>): seq<Triple> {
    var sentEnts := SentenceEntities(s.text, entities);
    if |sentEnts| > 1 then SentenceBody(sentEnts, |sentEnts|, s.tokens) else []
  }

  /** The triple lists of the sentences, one per sentence, in sentence order. */
  function PerSentence(sentences: seq<Sentence>, entities: seq<Entity>): seq<seq<Triple>>
  {
    seq(|sentences|, i requires 0 <= i < |sentences| => SentenceTriples(sentences[i], entities))
  }

  /** The lists of `xs`, one after the other. */
  function Flatten(xs: seq<seq<Triple>>): seq<Triple> {
    if xs == [] then [] else Flatten(xs[..|xs| - 1]) + xs[|xs| - 1]
  }

  /** The whole output of `extract_relationships`. */
  function Relations(sentences: seq<Sentence>, entities: seq<Entity>): seq<Triple> {
    Flatten(PerSentence(sentences, entities))
  }

  /** `extract_relationships(text, entities)` over the parse of `text`. The four
      nested loops of graphcreation.py:36-45 are split here into one method per level: the
      sentence loop, the `ent1` loop (`ScanSentence`), the `ent2` loop (`ScanPairs`)
      and the token loop (`ScanTokens`); each inner level returns what it appends. */
  method ExtractRelationships(sentences: seq<Sentence>, entities: seq<Entity>)
    returns (relationships: seq<Triple>)
    ensures relationships == Relations(sentences, entities)
  {
    ghost var perSentence := PerSentence(sentences, entities);
    relationships := [];
    for i := 0 to |sentences|
      invariant relationships == Flatten(perSentence[..i])
    {
      var sentence := sentences[i];
      var sentenceEntities := SentenceEntities(sentence.text, entities);
      if |sentenceEntities| > 1 {
        var found := ScanSentence(sentenceEntities, sentence.tokens);
        relationships := relationships + found;
      }
      assert perSentence[..i + 1][..i] == perSentence[..i];
    }
    assert perSentence[..|sentences|] == perSentence;
  }

  /** The `ent1` loop over the entities of one sentence. */
  method ScanSentence(sentenceEntities: seq<Entity>, tokens: seq<Token>) returns (found: seq<Triple>)
    ensures found == SentenceBody(sentenceEntities, |sentenceEntities|, tokens)
  {
    found := [];
    for a := 0 to |sentenceEntities|
      invariant found == SentenceBody(sentenceEntities, a, tokens)
    {
      var pairs := ScanPairs(sentenceEntities[a], sentenceEntities, tokens);
      found := found + pairs;
    }
  }

  /** The `ent2` loop for a fixed `ent1`: equal entities are skipped. */
  method ScanPairs(ent1: Entity, sentenceEntities: seq<Entity>, tokens: seq<Token>) returns (found: seq<Triple>)
    ensures found == PairTriples(ent1, sentenceEntities, |sentenceEntities|, tokens)
  {
    found := [];
    for b := 0 to |sentenceEntities|
      invariant found == PairTriples(ent1, sentenceEntities, b, tokens)
    {
      var ent2 := sentenceEntities[b];
      if ent1 != ent2 {
        var hits := ScanTokens(ent1, ent2, tokens);
        found := found + hits;
      }
    }
  }

  /** The token loop for one ordered pair of distinct entities. */
  method ScanTokens(ent1: Entity, ent2: Entity, tokens: seq<Token>) returns (found: seq<Triple>)
    ensures found == TokenTriples(ent1, ent2, tokens, |tokens|)
  {
    found := [];
    for k := 0 to |tokens|
      invariant found == TokenTriples(ent1, ent2, tokens, k)
    {
      var token := tokens[k];
      if token.dep in RelationDeps && IsSubstring(ent1.name, token.text) && IsSubstring(ent2.name, token.text) {
        found := found + [Triple(ent1, token.baseForm, ent2)];
      }
    }
  }

  // ---------------------------------------------------------------------------
  // What the emitted triples are

  /** One of the first `n` tokens fires for the triple's entities and carries its lemma. */
  ghost predicate TokenWitness(toks: seq<Token>, n: nat, t: Triple)
    requires n <= |toks|
  {
    exists k :: 0 <= k < n && Fires(t.subj, t.obj, toks[k]) && toks[k].baseForm == t.relation
  }

  /** Everything graphcreation.py:37-45 demands of a triple emitted for sentence `s`. */
  ghost predicate SentenceSupports(s: Sentence, entities: seq<Entity>, t: Triple) {
    t.subj in entities && t.obj in entities && t.subj != t.obj
    && IsSubstring(t.subj.name, s.text) && IsSubstring(t.obj.name, s.text)
    && TokenWitness(s.tokens, |s.tokens|, t)
  }

  lemma {:induction false} TokenTriplesMem(e1: Entity, e2: Entity, toks: seq<Token>, n: nat, t: Triple)
    requires n <= |toks|
    ensures t in TokenTriples(e1, e2, toks, n) <==> t.subj == e1 && t.obj == e2 && TokenWitness(toks, n, t)
  {
    if n > 0 {
      TokenTriplesMem(e1, e2, toks, n - 1, t);
      if TokenWitness(toks, n, t) && !TokenWitness(toks, n - 1, t) {
        var k :| 0 <= k < n && Fires(t.subj, t.obj, toks[k]) && toks[k].baseForm == t.relation;
        assert k == n - 1;
      }
    }
  }

  lemma {:induction false} PairTriplesMem(e1: Entity, sentEnts: seq<Entity>, n: nat, toks: seq<Token>, t: Triple)
    requires n <= |sentEnts|
    ensures t in PairTriples(e1, sentEnts, n, toks)
        <==> t.subj == e1 && t.obj in sentEnts[..n] && t.obj != e1 && TokenWitness(toks, |toks|, t)
  {
    if n > 0 {
      assert sentEnts[..n] == sentEnts[..n - 1] + [sentEnts[n - 1]];
      PairTriplesMem(e1, sentEnts, n - 1, toks, t);
      TokenTriplesMem(e1, sentEnts[n - 1], toks, |toks|, t);
    }
  }

  lemma {:induction false} SentenceBodyMem(sentEnts: seq<Entity>, n: nat, toks: seq<Token>, t: Triple)
    requires n <= |sentEnts|
    ensures t in SentenceBody(sentEnts, n, toks)
        <==> t.subj in sentEnts[..n] && t.obj in sentEnts && t.subj != t.obj && TokenWitness(toks, |toks|, t)
  {
    if n > 0 {
      assert sentEnts[..n] == sentEnts[..n - 1] + [sentEnts[n - 1]];
      SentenceBodyMem(sentEnts, n - 1, toks, t);
      PairTriplesMem(sentEnts[n - 1], sentEnts, |sentEnts|, toks, t);
      assert sentEnts[..|sentEnts|] == sentEnts;
    }
  }

  /** A triple comes out of a sentence exactly when both entities are distinct
      entries of the list, both names occur in the sentence, and one of its tokens
      with a relation role contains both names and has the triple's lemma. */
  lemma SentenceTriplesMem(s: Sentence, entities: seq<Entity>, t: Triple)
    ensures t in SentenceTriples(s, entities) <==> SentenceSupports(s, entities, t)
  {
    var sentEnts := SentenceEntities(s.text, entities);
    SentenceBodyMem(sentEnts, |sentEnts|, s.tokens, t);
    assert sentEnts[..|sentEnts|] == sentEnts;
  }

  /** The guard `len(sentence_entities) > 1` never changes the output: with fewer
      than two entries no ordered pair of distinct entities exists anyway. */
  lemma FewerThanTwoEntities(s: Sentence, entities: seq<Entity>)
    requires |SentenceEntities(s.text, entities)| < 2
    ensures SentenceTriples(s, entities) == []
    ensures SentenceBody(SentenceEntities(s.text, entities), |SentenceEntities(s.text, entities)|, s.tokens) == []
  {
    var sentEnts := SentenceEntities(s.text, entities);
    if |sentEnts| == 1 {
      assert PairTriples(sentEnts[0], sentEnts, 1, s.tokens) == PairTriples(sentEnts[0], sentEnts, 0, s.tokens);
    }
  }

  lemma {:induction false} FlattenMem(xs: seq<seq<Triple>>, t: Triple)
    ensures t in Flatten(xs) <==> exists i :: 0 <= i < |xs| && t in xs[i]
  {
    if xs != [] {
      var init := xs[..|xs| - 1];
      FlattenMem(init, t);
      if exists i :: 0 <= i < |init| && t in init[i] {
        var i :| 0 <= i < |init| && t in init[i];
        assert xs[i] == init[i];
      }
      if exists i :: 0 <= i < |xs| && t in xs[i] {
        var i :| 0 <= i < |xs| && t in xs[i];
        if i < |init| {
          assert init[i] == xs[i];
        }
      }
    }
  }

  lemma {:induction false} FlattenAppend(xs: seq<seq<Triple>>, ys: seq<seq<Triple>>)
    ensures Flatten(xs + ys) == Flatten(xs) + Flatten(ys)
    decreases |ys|
  {
    if ys == [] {
      assert xs + ys == xs;
    } else {
      var init := ys[..|ys| - 1];
      assert (xs + ys)[..|xs + ys| - 1] == xs + init;
      assert (xs + ys)[|xs + ys| - 1] == ys[|ys| - 1];
      FlattenAppend(xs, init);
    }
  }

  /** A triple is emitted exactly when some sentence supports it. */
  lemma RelationsMem(sentences: seq<Sentence>, entities: seq<Entity>, t: Triple)
    ensures t in Relations(sentences, entities)
        <==> exists i :: 0 <= i < |sentences| && SentenceSupports(sentences[i], entities, t)
  {
    var xs := PerSentence(sentences, entities);
    FlattenMem(xs, t);
    forall i | 0 <= i < |sentences|
      ensures t in xs[i] <==> SentenceSupports(sentences[i], entities, t)
    {
      SentenceTriplesMem(sentences[i], entities, t);
    }
  }

  /** Every emitted triple joins two distinct entries of the entity list through a
      token whose role is ROOT, prep or agent and whose text contains both names. */
  lemma RelationsSound(sentences: seq<Sentence>, entities: seq<Entity>, t: Triple)
    requires t in Relations(sentences, entities)
    ensures t.subj in entities && t.obj in entities && t.subj != t.obj
    ensures exists i, k ::
      (0 <= i < |sentences| && 0 <= k < |sentences[i].tokens|
       && sentences[i].tokens[k].dep in RelationDeps
       && sentences[i].tokens[k].baseForm == t.relation
       && IsSubstring(t.subj.name, sentences[i].tokens[k].text)
       && IsSubstring(t.obj.name, sentences[i].tokens[k].text))
  {
    RelationsMem(sentences, entities, t);
    var i :| 0 <= i < |sentences| && SentenceSupports(sentences[i], entities, t);
    var k :| 0 <= k < |sentences[i].tokens| && Fires(t.subj, t.obj, sentences[i].tokens[k])
      && sentences[i].tokens[k].baseForm == t.relation;
  }

  /** Both orientations of every pair are tried: a triple is emitted exactly when
      its reversal is. */
  lemma RelationsSymmetric(sentences: seq<Sentence>, entities: seq<Entity>, t: Triple)
    ensures t in Relations(sentences, entities)
        <==> Triple(t.obj, t.relation, t.subj) in Relations(sentences, entities)
  {
    var u := Triple(t.obj, t.relation, t.subj);
    RelationsMem(sentences, entities, t);
    RelationsMem(sentences, entities, u);
    forall i | 0 <= i < |sentences|
      ensures SentenceSupports(sentences[i], entities, t) <==> SentenceSupports(sentences[i], entities, u)
    {
      var toks := sentences[i].tokens;
      if TokenWitness(toks, |toks|, t) {
        var k :| 0 <= k < |toks| && Fires(t.subj, t.obj, toks[k]) && toks[k].baseForm == t.relation;
        assert Fires(u.subj, u.obj, toks[k]);
      }
      if TokenWitness(toks, |toks|, u) {
        var k :| 0 <= k < |toks| && Fires(u.subj, u.obj, toks[k]) && toks[k].baseForm == u.relation;
        assert Fires(t.subj, t.obj, toks[k]);
      }
    }
  }

  /** Output order is sentence order, and nothing is deduplicated: the triples of
      two parses in sequence are the triples of each, one after the other. */
  lemma RelationsAppend(a: seq<Sentence>, b: seq<Sentence>, entities: seq<Entity>)
    ensures Relations(a + b, entities) == Relations(a, entities) + Relations(b, entities)
  {
    assert PerSentence(a + b, entities) == PerSentence(a, entities) + PerSentence(b, entities);
    FlattenAppend(PerSentence(a, entities), PerSentence(b, entities));
  }
}
