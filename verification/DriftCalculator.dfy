/** The semantic-vector drift score: one minus the average similarity of an embedding to the
embeddings of its semantic types, clamped to [0, 1]. */
module DriftCalculator {
  import opened VectorMath

  /** A type embedding with its IRI and its norm. */
  datatype TypeEmbedding = TypeEmbedding(iri: string, embedding: Vector, norm: real)

  ghost predicate NormsAreRight(embedding: Vector, norm: real, types: seq<TypeEmbedding>) {
    IsNorm(norm, embedding) && forall i :: 0 <= i < |types| ==> IsNorm(types[i].norm, types[i].embedding)
  }

  /** The type embeddings whose IRI is one of the entity's semantic types. */
  function Relevant(semanticTypes: seq<string>, types: seq<TypeEmbedding>): (r: seq<TypeEmbedding>)
    ensures forall t :: t in r <==> t in types && t.iri in semanticTypes
  {
    if types == [] then []
    else
      var init, t := types[..|types| - 1], types[|types| - 1];
      assert types == init + [t];
      if t.iri in semanticTypes then Relevant(semanticTypes, init) + [t] else Relevant(semanticTypes, init)
  }

  /** Each of them is taken as often as it is stored. */
  lemma {:induction false} RelevantCounts(semanticTypes: seq<string>, types: seq<TypeEmbedding>, t: TypeEmbedding)
    ensures multiset(Relevant(semanticTypes, types))[t] == if t.iri in semanticTypes then multiset(types)[t] else 0
  {
    if types != [] {
      var init, last := types[..|types| - 1], types[|types| - 1];
      assert types == init + [last];
      RelevantCounts(semanticTypes, init, t);
    }
  }

  lemma {:induction false} RelevantIsEmpty(semanticTypes: seq<string>, types: seq<TypeEmbedding>)
    requires semanticTypes == [] || types == []
    ensures Relevant(semanticTypes, types) == []
  {
    if types != [] {
      RelevantIsEmpty(semanticTypes, types[..|types| - 1]);
    }
  }

  function TotalSimilarity(embedding: Vector, norm: real, types: seq<TypeEmbedding>): real {
    if types == [] then 0.0
    else
      var t := types[|types| - 1];
      TotalSimilarity(embedding, norm, types[..|types| - 1]) + Cosine(embedding, t.embedding, norm, t.norm)
  }

  function Clamp(x: real, lo: real, hi: real): real {
    if x < lo then lo else if x > hi then hi else x
  }

  /** What the score means for the relevant embeddings: no drift without any, else the average
      similarity subtracted from one. Only the upper clamp ever acts. */
  ghost predicate IsDrift(embedding: Vector, norm: real, relevant: seq<TypeEmbedding>, drift: real) {
    if relevant == [] then drift == 0.0
    else
      var d := 1.0 - TotalSimilarity(embedding, norm, relevant) / |relevant| as real;
      d >= 0.0 && drift == if d > 1.0 then 1.0 else d
  }

  method SemanticVectorDrift(embedding: Vector, norm: real, semanticTypes: seq<string>, types: seq<TypeEmbedding>)
    returns (drift: real)
    requires NormsAreRight(embedding, norm, types)
    ensures 0.0 <= drift <= 1.0
    ensures IsDrift(embedding, norm, Relevant(semanticTypes, types), drift)
  {
    if semanticTypes == [] || types == [] {
      RelevantIsEmpty(semanticTypes, types);
      return 0.0;
    }
    var relevant := Relevant(semanticTypes, types);
    if relevant == [] {
      return 0.0;
    }
    var total := 0.0;
    for i := 0 to |relevant|
      invariant total == TotalSimilarity(embedding, norm, relevant[..i])
    {
      total := total + Cosine(embedding, relevant[i].embedding, norm, relevant[i].norm);
      assert relevant[..i + 1][..i] == relevant[..i];
    }
    assert relevant[..|relevant|] == relevant;
    var average := total / |relevant| as real;
    RelevantNormsAreRight(embedding, norm, semanticTypes, types);
    AverageInRange(embedding, norm, relevant);
    drift := Clamp(1.0 - average, 0.0, 1.0);
  }

  lemma RelevantNormsAreRight(embedding: Vector, norm: real, semanticTypes: seq<string>, types: seq<TypeEmbedding>)
    requires NormsAreRight(embedding, norm, types)
    ensures NormsAreRight(embedding, norm, Relevant(semanticTypes, types))
  {
    var r := Relevant(semanticTypes, types);
    forall i | 0 <= i < |r| ensures IsNorm(r[i].norm, r[i].embedding) {
      assert r[i] in types;
      var j :| 0 <= j < |types| && types[j] == r[i];
    }
  }

  /** The sum of n similarities is at most n, and equals n exactly when each of them is 1. */
  lemma {:induction false} TotalInRange(embedding: Vector, norm: real, types: seq<TypeEmbedding>)
    requires NormsAreRight(embedding, norm, types)
    ensures -(|types| as real) <= TotalSimilarity(embedding, norm, types) <= |types| as real
    ensures TotalSimilarity(embedding, norm, types) == |types| as real
        <==> forall i :: 0 <= i < |types| ==> PositiveMultiple(types[i].embedding, embedding)
  {
    if types != [] {
      var init, t := types[..|types| - 1], types[|types| - 1];
      TotalInRange(embedding, norm, init);
      CosineInRange(embedding, t.embedding, norm, t.norm);
      CosineIsOneIff(embedding, t.embedding, norm, t.norm);
      assert |types| as real == |init| as real + 1.0;
      assert forall i :: 0 <= i < |init| ==> types[i] == init[i];
    }
  }

  lemma AverageInRange(embedding: Vector, norm: real, types: seq<TypeEmbedding>)
    requires NormsAreRight(embedding, norm, types) && types != []
    ensures -1.0 <= TotalSimilarity(embedding, norm, types) / |types| as real <= 1.0
  {
    TotalInRange(embedding, norm, types);
    QuotientInRange(TotalSimilarity(embedding, norm, types), |types| as real);
  }

  /** There is no drift exactly when no type embedding is relevant, or every relevant one is a
      positive multiple of a non-zero embedding. */
  lemma NoDriftIff(embedding: Vector, norm: real, semanticTypes: seq<string>, types: seq<TypeEmbedding>, drift: real)
    requires NormsAreRight(embedding, norm, types)
    requires IsDrift(embedding, norm, Relevant(semanticTypes, types), drift)
    ensures drift == 0.0 <==>
      forall t :: t in types && t.iri in semanticTypes ==> PositiveMultiple(t.embedding, embedding)
  {
    var relevant := Relevant(semanticTypes, types);
    assert (forall t :: t in types && t.iri in semanticTypes ==> PositiveMultiple(t.embedding, embedding))
      <==> forall t :: t in relevant ==> PositiveMultiple(t.embedding, embedding);
    if relevant != [] {
      RelevantNormsAreRight(embedding, norm, semanticTypes, types);
      TotalInRange(embedding, norm, relevant);
      QuotientInRange(TotalSimilarity(embedding, norm, relevant), |relevant| as real);
      assert (forall t :: t in relevant ==> PositiveMultiple(t.embedding, embedding))
        <==> forall i :: 0 <= i < |relevant| ==> PositiveMultiple(relevant[i].embedding, embedding);
    }
  }

  /** The upper clamp is needed: opposite vectors have one minus average similarity equal to 2. */
  lemma OppositeVectorsNeedTheClamp()
    ensures 1.0 - TotalSimilarity([1.0], 1.0, [TypeEmbedding("t", [-1.0], 1.0)]) / 1.0 == 2.0
  {
    var t := TypeEmbedding("t", [-1.0], 1.0);
    assert [t][..0] == [];
    assert Dot([1.0], [-1.0]) == Dot([], []) + -1.0 by {
      assert [1.0][..0] == [] && [-1.0][..0] == [];
    }
    assert TotalSimilarity([1.0], 1.0, [t]) == TotalSimilarity([1.0], 1.0, []) + Cosine([1.0], [-1.0], 1.0, 1.0);
  }

  /** Against a single type embedding the drift is told by the dot product: one minus the drift is the
      dot product over the norms, unless that is negative. */
  lemma OneTypeDrift(embedding: Vector, norm: real, t: TypeEmbedding, drift: real)
    requires NormsAreRight(embedding, norm, [t]) && norm > 0.0 && t.norm > 0.0 && |embedding| == |t.embedding| > 0
    requires IsDrift(embedding, norm, [t], drift)
    ensures Dot(embedding, t.embedding) >= 0.0 ==> (1.0 - drift) * (norm * t.norm) == Dot(embedding, t.embedding)
    ensures Dot(embedding, t.embedding) <= 0.0 ==> drift == 1.0
  {
    hide Dot, Cosine, NormsAreRight;
    var cosine := Cosine(embedding, t.embedding, norm, t.norm);
    assert [t][..0] == [];
    assert TotalSimilarity(embedding, norm, []) == 0.0;
    assert TotalSimilarity(embedding, norm, [t]) == cosine;
    CosineValue(embedding, t.embedding, norm, t.norm);
    ProductIsPositive(norm, t.norm, norm * t.norm);
    SignOfProduct(cosine, norm * t.norm);
    assert TotalSimilarity(embedding, norm, [t]) / |[t]| as real == cosine;
  }
}
