# Hybrid retrieval core: knowledge-graph construction and query-side text logic

This project models, in Dafny, the deterministic core of a retrieval-augmented
question-answering system that fuses a paragraph search over a document with
lookups in a knowledge graph built from the same document.

- **Graph construction** (`graphcreation.py`). Recognizer records are cleaned of
  the sub-word marker `"##"` and deduplicated into `(name, label)` entities
  (`EntityExtraction`). A nested scan over the parsed sentences, the ordered pairs
  of entities found in each sentence and the sentence's tokens emits
  `(entity, lemma, entity)` triples (`RelationExtraction`). The graph database's
  `MERGE`/`MATCH` writes are modelled by the class `GraphStore.KnowledgeGraph`,
  whose node and edge sets the write methods update in place. The build runs these
  steps in the order of `process_text_and_build_graph`.
- **Query side** (`app.py`). The document is split into paragraphs on `"\n\n"`.
  Search hits are mapped back to paragraphs. The graph lookup filters, caps at five
  and formats the relationships. The context and the prompt are assembled, and the
  generator's failure falls back to an error string (`App`).

The external capabilities are input data. The recognizer's records are a
`seq<NerRecord>`. The dependency parse is a `seq<Sentence>` of tokens
`{text, lemma, dep}`. The vector index's answer is a list of hit indices. The
database's enumeration of relationships is a `seq<Edge>`. The generator is a
function from prompt to `Result<string>`. A failing recognizer or parser is a
`Result.Err`.

The four nested loops of `extract_relationships` appear as one method per loop
level: `ExtractRelationships` loops over sentences, `ScanSentence` over `ent1`,
`ScanPairs` over `ent2` and `ScanTokens` over tokens. Each inner method returns
what its loop appends to the shared list, so the output and its order are those of
the Python code.

Four behaviours of the code that a reader might not expect, which the model follows:

- Chunking keeps empty chunks. It is an exact `split('\n\n')`; empty or
  whitespace-only chunks are not dropped.
- Sub-word fragments that the recognizer reports as separate records are not
  merged, despite the docstring of `clean_entity`. Each record's word is cleaned
  on its own, so a `Par` record and a `##is` record give the entities `Par` and
  `is` (`EntityExtraction.FragmentsNotMerged`).
- A relationship write matches its endpoints by name only. An edge is merged
  between every pair of nodes carrying the two names, whatever their labels. So
  the edge key is (source node, target node, type), not (source name, target name,
  type).
- The lookup's relation text is always `RELATED_TO`. This is `type(r)`; the stored
  `type` property is never returned.

## Model

| member | source | states |
|---|---|---|
| `EntityExtraction.CleanEntity` | graphcreation.py:21-23 | cleaning never lengthens a word |
| `EntityExtraction.CleanEntityUnchanged` | graphcreation.py:21-23 | a word with no `"##"` is returned unchanged |
| `EntityExtraction.CleanEntityRemovesMarkers` | graphcreation.py:21-23 | the cleaned word contains no `"##"`, even one formed around a deleted marker (left-to-right, non-overlapping deletion) |
| `EntityExtraction.CleanEntityIdempotent` | graphcreation.py:21-23 | cleaning twice equals cleaning once |
| `EntityExtraction.CleanEntityConcat` | graphcreation.py:21-23 | cleaning distributes over a concatenation whose left part does not end in `#` |
| `EntityExtraction.MarkerDeletedInPlace` | graphcreation.py:21-23 | a marker inside one word is deleted in place: for `a` not ending in `#`, `a + "##" + b` cleans to `clean(a) + clean(b)` |
| `EntityExtraction.Dedup` | graphcreation.py:29 | same elements as the input, no duplicates, no longer than the input |
| `EntityExtraction.ExtractEntities` | graphcreation.py:25-29 | an entity is in the result iff some record yields (cleaned word, label); each appears once; at most one per record |
| `EntityExtraction.FragmentsNotMerged` | graphcreation.py:21-29 | records `("Par", B-LOC)` and `("##is", I-LOC)` give the entities `Par` and `is`, and none named `Paris`: records are cleaned one by one |
| `RelationExtraction.SentenceEntities` | graphcreation.py:37 | exactly the listed entities whose name is a substring of the sentence text |
| `RelationExtraction.SentenceEntitiesAppend` | graphcreation.py:37 | the filter keeps list order and duplicates: filtering `a + b` is filtering `a`, then `b` |
| `RelationExtraction.ExtractRelationships` | graphcreation.py:31-46 | the loop over sentences returns exactly `Relations` (sentence order, then ent1, ent2, token order) |
| `RelationExtraction.ScanSentence` | graphcreation.py:38-39 | the `ent1` loop returns the sentence body for all sentence entities |
| `RelationExtraction.ScanPairs` | graphcreation.py:40-41 | the `ent2` loop returns the pair triples, skipping equal entities |
| `RelationExtraction.ScanTokens` | graphcreation.py:43-45 | the token loop returns the triples of the tokens that pass the role and substring test, in token order |
| `RelationExtraction.TokenTriplesMem` | graphcreation.py:43-45 | a triple comes from the token loop iff it has the pair's entities and some token with role ROOT/prep/agent contains both names and has its lemma |
| `RelationExtraction.PairTriplesMem` | graphcreation.py:40-45 | a triple comes from the `ent2` loop iff its object is a sentence entity different from `ent1` and a token fires for it |
| `RelationExtraction.SentenceBodyMem` | graphcreation.py:39-45 | a triple comes from the `ent1` loop iff both entities are sentence entities, distinct, and a token fires for them |
| `RelationExtraction.SentenceTriplesMem` | graphcreation.py:36-45 | a sentence emits a triple iff both entities are distinct listed entities whose names occur in the sentence and one of its tokens fires for them |
| `RelationExtraction.FewerThanTwoEntities` | graphcreation.py:37-38 | a sentence with fewer than two entity entries contributes no triples, and the loops would emit none even without the guard |
| `RelationExtraction.RelationsMem` | graphcreation.py:36-46 | a triple is emitted iff some sentence supports it |
| `RelationExtraction.RelationsSound` | graphcreation.py:39-45 | every emitted triple joins two distinct listed entities through a token with role ROOT, prep or agent whose text contains both names and whose lemma is the relation |
| `RelationExtraction.RelationsSymmetric` | graphcreation.py:39-45 | both orientations are tried: a triple is emitted iff its reversal is |
| `RelationExtraction.RelationsAppend` | graphcreation.py:36-46 | output is in sentence order and duplicates are kept: the triples of `a + b` are those of `a` followed by those of `b` |
| `GraphStore.NormalizeRelation` | graphcreation.py:62 | same length as the lemma; each space becomes `_`, each ASCII lower-case letter its upper-case letter, and every other character is kept |
| `GraphStore.NormalizeFixpoint` | graphcreation.py:62 | a type is unchanged by normalisation iff it is already normalised |
| `GraphStore.NormalizeIdempotent` | graphcreation.py:62 | normalising twice equals normalising once |
| `GraphStore.MatchedEdgesEmptyIff` | graphcreation.py:58-62 | a triple writes no edge iff one of its two names matches no node |
| `GraphStore.RelationshipEdgesMem` | graphcreation.py:56-62 | an edge is written for a list iff it is written for one of its triples |
| `GraphStore.RelationshipEdgesAppend` | graphcreation.py:56-62 | writing `a + b` writes the union of the edges written for `a` and for `b` |
| `GraphStore.RerunAfterInterruption` | graphcreation.py:56-62 | a run stopped after any prefix of relationship writes, then rerun in full, leaves the same edges as one run |
| `GraphStore.KnowledgeGraph.constructor` | graphcreation.py:19 | the graph starts empty and valid |
| `GraphStore.KnowledgeGraph.CreateNodes` | graphcreation.py:48-52 | the node set becomes the old one plus the listed entities (merge on (name, label)); edges are unchanged; every edge still joins stored nodes |
| `GraphStore.KnowledgeGraph.CreateRelationships` | graphcreation.py:54-62 | the edges become the old ones plus, per triple, an edge of the normalised type between every node named like the subject and every node named like the object; nodes are unchanged |
| `GraphStore.ProcessTextAndBuildGraph` | graphcreation.py:64-72 | entities, then relations over the same entity list, then all nodes, then all relationships; every emitted triple gets its own edge; a failing recognizer or parser aborts with nothing written |
| `GraphStore.BuildTwice` | graphcreation.py:64-72 | a second build from the same input leaves the graph exactly as one build does |
| `Strings.FindFrom` | app.py:41 | the leftmost occurrence of the separator at or after a position, or none |
| `Strings.JoinSplit` | app.py:41 | joining the pieces of a split with the separator gives back the input |
| `Strings.SplitPiecesAvoidSeparator` | app.py:41 | no piece contains the separator |
| `Strings.SplitSingleIff` | app.py:41 | the split is the single piece `[s]` iff `s` does not contain the separator |
| `Strings.SplitLeadingSeparator` | app.py:41 | a leading separator produces a leading empty piece |
| `Strings.SplitCutsLeftmost` | app.py:41 | every cut is leftmost: in each piece but the last, followed by the separator, the separator first occurs at the piece's end |
| `App.ChunkParagraphs` | app.py:41 | at least one chunk; joined with `"\n\n"` they give the text back; no chunk contains `"\n\n"`; no chunk but the last ends in `"\n"` (every cut is leftmost); a single chunk equal to the text iff it has no `"\n\n"` |
| `App.ChunksCutLeftmost` | app.py:41 | no paragraph but the last ends in a newline, so in `"a\n\n\nb"` the third newline begins the next paragraph |
| `App.EmptyChunksKept` | app.py:41 | empty chunks are kept: `"\n\n" + t` chunks to `""` followed by the chunks of `t`, and `"\n\n"` to two empty chunks |
| `App.SemanticSearch` | app.py:63-64 | one excerpt per hit, in hit order: the chunk at a non-negative index `i`, the chunk at `len(chunks) + i` for a negative one; each excerpt is a chunk |
| `App.ExcerptsAreParagraphs` | app.py:41-64 | every excerpt handed on is a paragraph without a blank line |
| `App.MatchingRows` | app.py:72-73 | the filter never yields more rows than it is given |
| `App.QueryKnowledgeGraph` | app.py:66-80 | at most 5 results: the first min(5, matches) matching rows, each formatted |
| `App.MatchingRowsMem` | app.py:72-73 | a row is kept iff its source or target name contains the query (case-sensitive) |
| `App.MatchingRowsAppend` | app.py:72-75 | the filter keeps the database's row order |
| `App.LookupSound` | app.py:72-80 | each result is `source + " RELATED_TO " + target` for a row one of whose names contains the query |
| `App.LookupCompleteBelowLimit` | app.py:75 | when at most five rows match, every matching row is reported |
| `App.LookupIgnoresStoredType` | app.py:74 | the stored `type` property never affects the result |
| `Strings.JoinAppend` | app.py:85 | joining two non-empty lists is joining each with one separator between |
| `App.BuildContext` | app.py:85 | with both lists non-empty, the excerpts and the triples as one newline-joined list; with no triples, the joined excerpts then `"\n"`; with no excerpts, `"\n"` then the joined triples; with neither, `"\n"` |
| `App.BuildPrompt` | app.py:86 | the prompt is `"Context:\n"`, the context, `"\n\nQuestion: "`, the query and `"\n\nAnswer:"`, each at its fixed position, 30 characters longer than context and query together |
| `App.GenerateResponse` | app.py:82-93 | on success the generator's text unchanged; on failure `"Error generating response: "` followed by the message; no failure escapes |
| `App.FailureIsRecognisable` | app.py:89-93 | if the generator never itself answers with the error prefix, an answer starts with it iff the generator failed |

## Left out

- `extraction.py`: PDF parsing through external libraries and a file write; it is not part of this model.
- Model, driver and credential setup (`Ollama`, `SentenceTransformer`, the NER `pipeline`, `spacy.load`, `GraphDatabase.driver`, `os.getenv`): foreign capabilities, replaced by input data.
- Embedding computation and the FAISS index build and search: floating-point library code; only the mapping from returned indices to chunks is modelled.
- `App.SemanticSearch`: requires every hit index to lie in Python's valid range; FAISS's `-1` padding when `top_k` exceeds the number of chunks is not modelled (as written, such a `-1` would select the last chunk).
- The Streamlit UI, caching decorators, session state and chat history in `main`: user-interface code.
- File loading in both files, including the `UnicodeDecodeError` branch that leaves the text unbound: I/O; a failed load is not represented.
- Session and transaction mechanics of `execute_write` and `driver.close`: the writes are sequential updates of one in-memory graph; a failing database write is not modelled.
- `EntityExtraction.ExtractEntities`: Python's `set` iteration order depends on hashing; the model fixes first-occurrence order, and its contract promises only the element set and the absence of duplicates, which is all `list(set(...))` promises. The relation lemmas hold for any entity list.
- `GraphStore.NormalizeRelation`: upper-cases ASCII letters only; Unicode case mapping of `str.upper` (for example `ß` to `SS`, which changes the length) is not modelled.
- `App.QueryKnowledgeGraph`: the order in which the database enumerates relationships is an input, not derived from the stored edge set.
- `App.GenerateResponse`: the generator is a total function from prompt to answer or error, and the text of `str(e)` is an input; exceptions that are not `Exception`s (such as `KeyboardInterrupt`) propagate out of `generate_response` in the Python code and are not modelled.
