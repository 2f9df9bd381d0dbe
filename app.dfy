/** The query side of app.py: paragraph chunking, mapping search hits back to
    chunks, the knowledge-graph lookup, and prompt building with the fallback
    for a failing generator. */
module App {
  import opened Outcomes
  import opened Strings
  import opened GraphStore

  // ---------------------------------------------------------------------------
  // Chunking (`preprocess_and_index`)

  /** The paragraph separator the document is split on. */
  const ParagraphBreak: string := "\n\n"

  /** `_pdf_content.split('\n\n')`: the text cut at every blank line, empty
      paragraphs kept. */
  function ChunkParagraphs(text: string): (chunks: seq<string>)
    ensures |chunks| >= 1
    ensures Join(ParagraphBreak, chunks) == text
    ensures forall k :: 0 <= k < |chunks| ==> !IsSubstring(ParagraphBreak, chunks[k])
    ensures chunks == [text] <==> !IsSubstring(ParagraphBreak, text)
    ensures forall k :: 0 <= k < |chunks| - 1 ==> !EndsWith(chunks[k], "\n")
  {
    ChunksCutLeftmost(text);
    JoinSplit(text, ParagraphBreak);
    SplitPiecesAvoidSeparator(text, ParagraphBreak);
    SplitSingleIff(text, ParagraphBreak);
    Split(text, ParagraphBreak)
  }

  /** Every cut is at the leftmost blank line: no chunk but the last ends in a
      newline, so a run of three newlines leaves its third on the next chunk. */
  lemma ChunksCutLeftmost(text: string)
    ensures forall k :: 0 <= k < |Split(text, ParagraphBreak)| - 1 ==>
      !EndsWith(Split(text, ParagraphBreak)[k], "\n")
  {
    var parts := Split(text, ParagraphBreak);
    SplitCutsLeftmost(text, ParagraphBreak);
    forall k | 0 <= k < |parts| - 1
      ensures !EndsWith(parts[k], "\n")
    {
      var p := parts[k];
      if EndsWith(p, "\n") {
        assert (p + ParagraphBreak)[|p| - 1..|p| + 1] == ParagraphBreak;
        assert OccursAt(p + ParagraphBreak, ParagraphBreak, |p| - 1);
        assert false;
      }
    }
  }

  /** Empty chunks are kept: a leading blank line yields a leading empty chunk,
      and a text made of one blank line yields two empty chunks. */
  lemma EmptyChunksKept(text: string)
    ensures ChunkParagraphs(ParagraphBreak + text) == [""] + ChunkParagraphs(text)
    ensures ChunkParagraphs(ParagraphBreak) == ["", ""]
  {
    SplitLeadingSeparator(text, ParagraphBreak);
    SplitLeadingSeparator("", ParagraphBreak);
    assert ParagraphBreak + "" == ParagraphBreak;
    assert FindFrom("", ParagraphBreak, 0) == None;
  }

  // ---------------------------------------------------------------------------
  // Search hits (`semantic_search`)

  /** Python list indexing: a negative index counts from the end. */
  function PyIndex(n: nat, i: int): (j: nat)
    requires -(n as int) <= i < n
    ensures j < n
  {
    if i < 0 then n + i else i
  }

  /** `[content_chunks[i] for i in indices[0]]`: the chunk of every hit, in the
      order the index returned them. */
  function SemanticSearch(chunks: seq<string>, indices: seq<int>): (excerpts: seq<string>)
    requires forall k :: 0 <= k < |indices| ==> -|chunks| <= indices[k] < |chunks|
    ensures |excerpts| == |indices|
    ensures forall k :: 0 <= k < |indices| && indices[k] >= 0 ==> excerpts[k] == chunks[indices[k]]
    ensures forall k :: 0 <= k < |indices| && indices[k] < 0 ==> excerpts[k] == chunks[|chunks| + indices[k]]
    ensures forall k :: 0 <= k < |indices| ==> excerpts[k] in chunks
  {
    seq(|indices|, k requires 0 <= k < |indices| => chunks[PyIndex(|chunks|, indices[k])])
  }

  /** Every excerpt handed to the prompt is a paragraph of the document: it
      contains no blank line. */
  lemma ExcerptsAreParagraphs(text: string, indices: seq<int>)
    requires forall k :: 0 <= k < |indices| ==> -|ChunkParagraphs(text)| <= indices[k] < |ChunkParagraphs(text)|
    ensures forall k :: 0 <= k < |indices| ==> !IsSubstring(ParagraphBreak, SemanticSearch(ChunkParagraphs(text), indices)[k])
  {
  }

  // ---------------------------------------------------------------------------
  // Graph lookup (`query_knowledge_graph`)

  /** What `type(r)` returns for every stored relationship. */
  const RelationLabel: string := "RELATED_TO"

  /** The `LIMIT` of the lookup query. */
  const LookupLimit: nat := 5

  /** `e.name CONTAINS $user_query OR related.name CONTAINS $user_query`. */
  predicate Mentions(e: Edge, query: string) {
    IsSubstring(query, e.src.name) || IsSubstring(query, e.dst.name)
  }

  /** The rows the `WHERE` clause keeps, in the database's order. */
  function MatchingRows(rows: seq<Edge>, query: string): (r: seq<Edge>)
    ensures |r| <= |rows|
  {
    if rows == [] then []
    else (if Mentions(rows[0], query) then [rows[0]] else []) + MatchingRows(rows[1..], query)
  }

  /** `f"{record['entity']} {record['relation']} {record['related_entity']}"`. */
  function FormatRow(e: Edge): string {
    e.src.name + " " + RelationLabel + " " + e.dst.name
  }

  /** `query_knowledge_graph(user_query)` over the relationships as the database
      enumerates them: the first five matching rows, formatted. */
  function QueryKnowledgeGraph(rows: seq<Edge>, query: string): (results: seq<string>)
    ensures |results| <= LookupLimit
    ensures |results| == if |MatchingRows(rows, query)| < LookupLimit then |MatchingRows(rows, query)| else LookupLimit
    ensures forall k :: 0 <= k < |results| ==> results[k] == FormatRow(MatchingRows(rows, query)[k])
  {
    var matching := MatchingRows(rows, query);
    var kept := if |matching| <= LookupLimit then matching else matching[..LookupLimit];
    seq(|kept|, k requires 0 <= k < |kept| => FormatRow(kept[k]))
  }

  /** A row passes the filter exactly when it is a row and mentions the query. */
  lemma {:induction false} MatchingRowsMem(rows: seq<Edge>, query: string, e: Edge)
    ensures e in MatchingRows(rows, query) <==> e in rows && Mentions(e, query)
  {
    if rows != [] {
      assert rows == [rows[0]] + rows[1..];
      MatchingRowsMem(rows[1..], query, e);
    }
  }

  /** The filter keeps the database's row order. */
  lemma {:induction false} MatchingRowsAppend(a: seq<Edge>, b: seq<Edge>, query: string)
    ensures MatchingRows(a + b, query) == MatchingRows(a, query) + MatchingRows(b, query)
  {
    if a == [] {
      assert a + b == b;
    } else {
      var head := if Mentions(a[0], query) then [a[0]] else [];
      assert (a + b)[0] == a[0];
      assert (a + b)[1..] == a[1..] + b;
      assert MatchingRows(a + b, query) == head + MatchingRows(a[1..] + b, query);
      assert MatchingRows(a, query) == head + MatchingRows(a[1..], query);
      MatchingRowsAppend(a[1..], b, query);
    }
  }

  /** Every result names a stored relationship one of whose endpoints contains
      the query, as "source RELATED_TO target". */
  lemma LookupSound(rows: seq<Edge>, query: string, k: nat)
    requires k < |QueryKnowledgeGraph(rows, query)|
    ensures exists j ::
      (0 <= j < |rows| && Mentions(rows[j], query)
       && QueryKnowledgeGraph(rows, query)[k] == rows[j].src.name + " RELATED_TO " + rows[j].dst.name)
  {
    var matching := MatchingRows(rows, query);
    var e := matching[k];
    MatchingRowsMem(rows, query, e);
    var j :| 0 <= j < |rows| && rows[j] == e;
  }

  /** When at most five rows match, every matching row is reported. */
  lemma LookupCompleteBelowLimit(rows: seq<Edge>, query: string, e: Edge)
    requires |MatchingRows(rows, query)| <= LookupLimit
    requires e in rows && Mentions(e, query)
    ensures FormatRow(e) in QueryKnowledgeGraph(rows, query)
  {
    MatchingRowsMem(rows, query, e);
    var matching := MatchingRows(rows, query);
    var k :| 0 <= k < |matching| && matching[k] == e;
    assert QueryKnowledgeGraph(rows, query)[k] == FormatRow(e);
  }

  /** The rows with their stored `type` property replaced. */
  function Retyped(rows: seq<Edge>, relType: string): seq<Edge>
  {
    seq(|rows|, k requires 0 <= k < |rows| => rows[k].(relType := relType))
  }

  /** The stored `type` property never reaches the result: only `type(r)` does. */
  lemma {:induction false} LookupIgnoresStoredType(rows: seq<Edge>, query: string, relType: string)
    ensures QueryKnowledgeGraph(Retyped(rows, relType), query) == QueryKnowledgeGraph(rows, query)
  {
    MatchingRowsRetyped(rows, query, relType);
  }

  lemma {:induction false} MatchingRowsRetyped(rows: seq<Edge>, query: string, relType: string)
    ensures |MatchingRows(Retyped(rows, relType), query)| == |MatchingRows(rows, query)|
    ensures forall k :: 0 <= k < |MatchingRows(rows, query)| ==>
      FormatRow(MatchingRows(Retyped(rows, relType), query)[k]) == FormatRow(MatchingRows(rows, query)[k])
  {
    if rows != [] {
      var rt := Retyped(rows, relType);
      assert rt[1..] == Retyped(rows[1..], relType);
      MatchingRowsRetyped(rows[1..], query, relType);
    }
  }

  // ---------------------------------------------------------------------------
  // Prompt and answer (`generate_response`)

  /** `"\n".join(pdf_excerpts) + "\n" + "\n".join(kg_info)`. */
  function BuildContext(excerpts: seq<string>, kgInfo: seq<string>): (context: string)
    ensures |excerpts| > 0 && |kgInfo| > 0 ==> context == Join("\n", excerpts + kgInfo)
    ensures excerpts == [] && kgInfo == [] ==> context == "\n"
    ensures |excerpts| > 0 && kgInfo == [] ==> context == Join("\n", excerpts) + "\n"
    ensures excerpts == [] && |kgInfo| > 0 ==> context == "\n" + Join("\n", kgInfo)
    ensures |context| == |Join("\n", excerpts)| + 1 + |Join("\n", kgInfo)|
  {
    var context := Join("\n", excerpts) + "\n" + Join("\n", kgInfo);
    if |excerpts| > 0 && |kgInfo| > 0 then JoinAppend("\n", excerpts, kgInfo); context else context
  }

  const PromptHead: string := "Context:\n"
  const QuestionHead: string := "\n\nQuestion: "
  const AnswerCue: string := "\n\nAnswer:"

  /** `f"Context:\n{context}\n\nQuestion: {user_query}\n\nAnswer:"`. */
  function BuildPrompt(context: string, query: string): (prompt: string)
    ensures StartsWith(prompt, PromptHead) && EndsWith(prompt, AnswerCue)
    ensures OccursAt(prompt, context, |PromptHead|)
    ensures OccursAt(prompt, QuestionHead, |PromptHead| + |context|)
    ensures OccursAt(prompt, query, |PromptHead| + |context| + |QuestionHead|)
    ensures |prompt| == |context| + |query| + 30
  {
    var front := PromptHead + context + QuestionHead;
    var prompt := front + query + AnswerCue;
    SliceOfConcat([], PromptHead, context + QuestionHead + query + AnswerCue);
    SliceOfConcat(front + query, AnswerCue, []);
    SliceOfConcat(PromptHead, context, QuestionHead + query + AnswerCue);
    SliceOfConcat(front, query, AnswerCue);
    SliceOfConcat(PromptHead + context, QuestionHead, query + AnswerCue);
    prompt
  }

  /** The prefix of the reported error. */
  const ErrorPrefix: string := "Error generating response: "

  /** `generate_response`: the generator's answer to the prompt, or, when it
      raises, the error message as the answer. */
  function GenerateResponse(query: string, excerpts: seq<string>, kgInfo: seq<string>,
                            generate: string -> Result<string>): (response: string)
    ensures generate(BuildPrompt(BuildContext(excerpts, kgInfo), query)).Ok? ==>
      response == generate(BuildPrompt(BuildContext(excerpts, kgInfo), query)).value
    ensures generate(BuildPrompt(BuildContext(excerpts, kgInfo), query)).Err? ==>
      StartsWith(response, ErrorPrefix)
      && response[|ErrorPrefix|..] == generate(BuildPrompt(BuildContext(excerpts, kgInfo), query)).message
  {
    var context := BuildContext(excerpts, kgInfo);
    var prompt := BuildPrompt(context, query);
    match generate(prompt)
    case Ok(text) => text
    case Err(message) => ErrorPrefix + message
  }

  /** When the generator never itself answers with the error prefix, an answer
      starts with the prefix exactly when the generator failed. */
  lemma FailureIsRecognisable(query: string, excerpts: seq<string>, kgInfo: seq<string>,
                              generate: string -> Result<string>)
    requires forall p :: generate(p).Ok? ==> !StartsWith(generate(p).value, ErrorPrefix)
    ensures StartsWith(GenerateResponse(query, excerpts, kgInfo, generate), ErrorPrefix)
        <==> generate(BuildPrompt(BuildContext(excerpts, kgInfo), query)).Err?
  {
    var answer := generate(BuildPrompt(BuildContext(excerpts, kgInfo), query));
    if answer.Ok? {
      assert !StartsWith(answer.value, ErrorPrefix);
    }
  }
}
