/**
 * The text handed to the zero-shot topic classifier: the named entities of a tweet, filtered by
 * label and joined into one string, appended to the tweet after `" - "`.
 */
module TopicExtraction {
  import opened Strings

  /** A named entity as the recogniser reports it: its text and its label (`kind`). */
  datatype Entity = Entity(text: string, kind: string)

  /** The labels of entities that say nothing about a topic: ordinals, dates, numbers, amounts, times. */
  const RemovedLabels: seq<string> := ["ORDINAL", "DATE", "CARDINAL", "MONEY", "TIME", "PERCENT"]

  predicate Kept(e: Entity) {
    e.kind !in RemovedLabels
  }

  /** `filter_entities`: the entities whose label is not one of the removed labels, in order. */
  function FilterEntities(entities: seq<Entity>): (r: seq<Entity>)
    ensures |r| <= |entities|
    ensures forall e :: e in r <==> e in entities && Kept(e)
  {
    if entities == [] then []
    else
      var rest := FilterEntities(entities[1..]);
      assert entities == [entities[0]] + entities[1..];
      if Kept(entities[0]) then [entities[0]] + rest else rest
  }

  /** `a` is `b` with some elements left out, the others in their order. */
  predicate Subsequence(a: seq<Entity>, b: seq<Entity>)
    decreases |b|
  {
    if a == [] then true
    else if b == [] then false
    else (a[0] == b[0] && Subsequence(a[1..], b[1..])) || Subsequence(a, b[1..])
  }

  /** Filtering keeps each occurrence of a kept entity and drops every other one. */
  lemma {:induction false} FilterCounts(entities: seq<Entity>, e: Entity)
    ensures multiset(FilterEntities(entities))[e] == if Kept(e) then multiset(entities)[e] else 0
    decreases |entities|
  {
    if entities != [] {
      FilterCounts(entities[1..], e);
      assert entities == [entities[0]] + entities[1..];
    }
  }

  /** The kept entities appear in the order of the input. */
  lemma {:induction false} FilterSubsequence(entities: seq<Entity>)
    ensures Subsequence(FilterEntities(entities), entities)
    decreases |entities|
  {
    if entities != [] {
      var r := FilterEntities(entities);
      FilterSubsequence(entities[1..]);
      if Kept(entities[0]) {
        assert r[0] == entities[0] && r[1..] == FilterEntities(entities[1..]);
      }
    }
  }

  /** Filtering twice is filtering once. */
  lemma {:induction false} FilterIdempotent(entities: seq<Entity>)
    ensures FilterEntities(FilterEntities(entities)) == FilterEntities(entities)
    decreases |entities|
  {
    if entities != [] {
      var r := FilterEntities(entities);
      FilterIdempotent(entities[1..]);
      if Kept(entities[0]) {
        assert r[0] == entities[0] && r[1..] == FilterEntities(entities[1..]);
      }
    }
  }

  /** Filtering a concatenation filters each part. */
  lemma {:induction false} FilterAppend(a: seq<Entity>, b: seq<Entity>)
    ensures FilterEntities(a + b) == FilterEntities(a) + FilterEntities(b)
    decreases |a|
  {
    if a == [] {
      assert a + b == b;
    } else {
      assert (a + b)[1..] == a[1..] + b;
      assert (a + b)[0] == a[0];
      FilterAppend(a[1..], b);
    }
  }

  /** The text of every entity, in order. */
  function Texts(entities: seq<Entity>): (ts: seq<string>)
    ensures |ts| == |entities| && forall i :: 0 <= i < |entities| ==> ts[i] == entities[i].text
  {
    if entities == [] then [] else [entities[0].text] + Texts(entities[1..])
  }

  /** `entities_to_string`: the entity texts separated by single spaces. */
  function EntitiesToString(entities: seq<Entity>): string {
    Join(Texts(entities), ' ')
  }

  /** The joined string is empty exactly for no entities or a single entity with an empty text. */
  lemma EntitiesToStringEmpty(entities: seq<Entity>)
    ensures EntitiesToString(entities) == "" <==> entities == [] || (|entities| == 1 && entities[0].text == "")
  {
    JoinEmptyIff(Texts(entities), ' ');
  }

  /** Entity texts without spaces are recovered by splitting the joined string at spaces. */
  lemma EntitiesToStringSplit(entities: seq<Entity>)
    requires entities != []
    requires forall i :: 0 <= i < |entities| ==> ' ' !in entities[i].text
    ensures Split(EntitiesToString(entities), ' ') == Texts(entities)
  {
    SplitJoin(Texts(entities), ' ');
  }

  /** The labels play no part in the joined string. */
  lemma EntitiesToStringIgnoresLabels(a: seq<Entity>, b: seq<Entity>)
    requires |a| == |b| && forall i :: 0 <= i < |a| ==> a[i].text == b[i].text
    ensures EntitiesToString(a) == EntitiesToString(b)
  {
    assert Texts(a) == Texts(b);
  }

  /**
   * `input_text` in `classify_topic`, given the recognised entities: the tweet, then `" - "` and
   * the joined kept entities when that string is not empty.
   */
  function ClassifierInput(text: string, entities: seq<Entity>): (input: string)
    ensures text <= input
  {
    var entStr := EntitiesToString(FilterEntities(entities));
    if entStr != "" then text + " - " + entStr else text
  }

  /**
   * The classifier sees the tweet alone exactly when no entity survives filtering with a
   * non-empty text on its own; otherwise the tweet is followed by `" - "` and the joined entities.
   */
  lemma ClassifierInputShape(text: string, entities: seq<Entity>)
    ensures var kept := FilterEntities(entities);
      (ClassifierInput(text, entities) == text <==> kept == [] || (|kept| == 1 && kept[0].text == ""))
      && (ClassifierInput(text, entities) != text ==>
            ClassifierInput(text, entities) == text + " - " + EntitiesToString(kept))
  {
    var kept := FilterEntities(entities);
    EntitiesToStringEmpty(kept);
    if EntitiesToString(kept) != "" {
      assert |text + " - " + EntitiesToString(kept)| > |text|;
    }
  }

  /** Entities with removed labels never change what the classifier sees. */
  lemma ClassifierIgnoresRemoved(text: string, entities: seq<Entity>, e: Entity, k: nat)
    requires !Kept(e) && k <= |entities|
    ensures ClassifierInput(text, entities[..k] + [e] + entities[k..]) == ClassifierInput(text, entities)
  {
    assert entities[..k] + entities[k..] == entities;
    FilterSkipsRemoved(entities[..k], e, entities[k..]);
  }

  /** Filtering drops a removed entity wherever it stands. */
  lemma FilterSkipsRemoved(a: seq<Entity>, e: Entity, b: seq<Entity>)
    requires !Kept(e)
    ensures FilterEntities(a + [e] + b) == FilterEntities(a + b)
  {
    var fa := FilterEntities(a);
    assert FilterEntities([e]) == [] by {
      assert [e][1..] == [];
    }
    assert FilterEntities(a + [e]) == fa by {
      FilterAppend(a, [e]);
      assert fa + [] == fa;
    }
    FilterAppend(a + [e], b);
    FilterAppend(a, b);
  }
}
