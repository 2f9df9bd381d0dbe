/** Named-entity extraction (graphcreation.py): the recognizer's records become a
    duplicate-free list of (word, label) entities with sub-word markers removed. */
module EntityExtraction {
  import opened Strings

  /** A node key of the knowledge graph: the `(word, label)` tuple of graphcreation.py:28 (`kind` is the label). */
  datatype Entity = Entity(name: string, kind: string)

  /** One record of the token-level recognizer: its `word` and `entity` fields. */
  datatype NerRecord = NerRecord(word: string, entity: string)

  /** The sub-word continuation marker the recognizer's tokenizer emits. */
  const Marker: string := "##"

  /** `word.replace("##", "")`: every marker is deleted, scanning left to right
      without overlap, so `"###"` becomes `"#"`. */
  function CleanEntity(word: string): (r: string)
    ensures |r| <= |word|
  {
    if |word| >= 2 && word[0] == '#' && word[1] == '#' then CleanEntity(word[2..])
    else if word == [] then []
    else [word[0]] + CleanEntity(word[1..])
  }

  /** A word without a marker is returned unchanged. */
  lemma {:induction false} CleanEntityUnchanged(word: string)
    requires !IsSubstring(Marker, word)
    ensures CleanEntity(word) == word
    decreases |word|
  {
    if word != [] {
      SubstringCons(Marker, word[0], word[1..]);
      assert [word[0]] + word[1..] == word;
      if |word| >= 2 {
        assert word[..2] == Marker ==> OccursAt(word, Marker, 0);
      }
      CleanEntityUnchanged(word[1..]);
    }
  }

  /** The cleaned word never contains a marker, not even one formed by the
      characters around a deleted one. */
  lemma {:induction false} CleanEntityRemovesMarkers(word: string)
    ensures !IsSubstring(Marker, CleanEntity(word))
    decreases |word|
  {
    if |word| >= 2 && word[0] == '#' && word[1] == '#' {
      CleanEntityRemovesMarkers(word[2..]);
    } else if word != [] {
      var rest := CleanEntity(word[1..]);
      CleanEntityRemovesMarkers(word[1..]);
      SubstringCons(Marker, word[0], rest);
      if |word| >= 2 {
        // word[1] starts no marker in word[1..] unless it is '#', and then word[0] is not '#'
        assert word[1] != '#' ==> rest[0] == word[1];
      }
    }
  }

  /** Cleaning is idempotent. */
  lemma CleanEntityIdempotent(word: string)
    ensures CleanEntity(CleanEntity(word)) == CleanEntity(word)
  {
    CleanEntityRemovesMarkers(word);
    CleanEntityUnchanged(CleanEntity(word));
  }

  /** Cleaning distributes over a concatenation whose left part does not end in '#'. */
  lemma {:induction false} CleanEntityConcat(a: string, b: string)
    requires a == [] || a[|a| - 1] != '#'
    ensures CleanEntity(a + b) == CleanEntity(a) + CleanEntity(b)
    decreases |a|
  {
    if a == [] {
      assert a + b == b;
    } else if |a| >= 2 && a[0] == '#' && a[1] == '#' {
      assert (a + b)[0] == '#' && (a + b)[1] == '#';
      assert (a + b)[2..] == a[2..] + b;
      assert CleanEntity(a + b) == CleanEntity(a[2..] + b);
      CleanEntityConcat(a[2..], b);
    } else {
      assert (a + b)[0] == a[0];
      assert |a| >= 2 ==> (a + b)[1] == a[1];
      assert (a + b)[1..] == a[1..] + b;
      assert CleanEntity(a + b) == [a[0]] + CleanEntity(a[1..] + b);
      CleanEntityConcat(a[1..], b);
    }
  }

  /** A marker inside one word is deleted in place, for a left part not ending
      in `#`: `CleanEntity("Par##is") == "Paris"`. */
  lemma MarkerDeletedInPlace(a: string, b: string)
    requires a == [] || a[|a| - 1] != '#'
    ensures CleanEntity(a + Marker + b) == CleanEntity(a) + CleanEntity(b)
  {
    assert a + Marker + b == a + (Marker + b);
    CleanEntityConcat(a, Marker + b);
    assert (Marker + b)[2..] == b;
  }

  /** The entity a record stands for: `(clean_entity(ent['word']), ent['entity'])`. */
  function ToEntity(rec: NerRecord): Entity {
    Entity(CleanEntity(rec.word), rec.entity)
  }

  predicate NoDuplicates(s: seq<Entity>) {
    forall i, j :: 0 <= i < j < |s| ==> s[i] != s[j]
  }

  /** Keeps the first occurrence of each element, in order. */
  function Dedup(s: seq<Entity>): (r: seq<Entity>)
    ensures forall x :: x in r <==> x in s
    ensures NoDuplicates(r)
    ensures |r| <= |s|
    decreases |s|
  {
    if s == [] then []
    else
      var r0 := Dedup(s[..|s| - 1]);
      var last := s[|s| - 1];
      assert forall x :: x in s <==> x in s[..|s| - 1] || x == last by {
        assert s == s[..|s| - 1] + [last];
      }
      if last in r0 then r0 else r0 + [last]
  }

  /** Fragments that the recognizer reports as separate records are not merged:
      each record's word is cleaned on its own, so a `Par` record followed by a
      `##is` record yields the entities `Par` and `is`, and no `Paris`. */
  lemma FragmentsNotMerged()
    ensures var r := ExtractEntities([NerRecord("Par", "B-LOC"), NerRecord("##is", "I-LOC")]);
      && Entity("Par", "B-LOC") in r
      && Entity("is", "I-LOC") in r
      && forall e :: e in r ==> e.name != "Paris"
  {
    assert CleanEntity("Par") == "Par";
    assert CleanEntity("##is") == "is";
    var records := [NerRecord("Par", "B-LOC"), NerRecord("##is", "I-LOC")];
    assert ToEntity(records[0]) == Entity("Par", "B-LOC");
    assert ToEntity(records[1]) == Entity("is", "I-LOC");
  }

  /** `list(set(formatted_entities))`: exactly the entities of the records, each once. */
  function ExtractEntities(records: seq<NerRecord>): (r: seq<Entity>)
    ensures forall e :: e in r <==> exists k :: 0 <= k < |records| && ToEntity(records[k]) == e
    ensures NoDuplicates(r)
    ensures |r| <= |records|
  {
    var formatted := seq(|records|, k requires 0 <= k < |records| => ToEntity(records[k]));
    assert forall e :: e in formatted <==> exists k :: 0 <= k < |records| && ToEntity(records[k]) == e by {
      assert forall k :: 0 <= k < |records| ==> formatted[k] == ToEntity(records[k]);
    }
    Dedup(formatted)
  }
}
