/** Speaker identification in `process_login` of `app.py`: a linear scan for the
    enrolled speaker nearest to the login embedding, then the threshold decision. The
    cosine distance of `scipy` is a foreign function: `None` stands for a comparison
    that raised (or gave NaN, which never passes the `<` of the scan). */
module Identification {
  import opened Wrappers
  import opened Dicts
  import opened NdArrays

  /** `app.config['COSINE_THRESHOLD']`. */
  const COSINE_THRESHOLD: real := 0.4

  /** `min_distance`: `float('inf')` until a comparison succeeds. */
  datatype Bound = Infinity | Finite(value: real)

  /** `d < m` for a finite `d`. */
  predicate Below(d: real, m: Bound) {
    m.Infinity? || d < m.value
  }

  /** The distance between the login embedding and the `j`-th enrolled speaker. */
  function DistanceAt(enrolled: Dict<NdArray>, query: NdArray,
                      cosine: (NdArray, NdArray) -> Option<real>, j: nat): Option<real>
    requires enrolled.Valid() && j < |enrolled.keys|
  {
    cosine(query, enrolled.values[enrolled.keys[j]])
  }

  /** Among the first `n` enrolled speakers, the `k`-th has a distance, no other
      successful distance is smaller, and every speaker before it is strictly farther:
      it is the first nearest one. */
  ghost predicate FirstNearest(enrolled: Dict<NdArray>, query: NdArray,
                               cosine: (NdArray, NdArray) -> Option<real>, n: nat, k: nat)
    requires enrolled.Valid() && n <= |enrolled.keys|
  {
    && k < n
    && DistanceAt(enrolled, query, cosine, k).Some?
    && (forall j | 0 <= j < n && DistanceAt(enrolled, query, cosine, j).Some? ::
          DistanceAt(enrolled, query, cosine, k).value <= DistanceAt(enrolled, query, cosine, j).value)
    && (forall j | 0 <= j < k && DistanceAt(enrolled, query, cosine, j).Some? ::
          DistanceAt(enrolled, query, cosine, k).value < DistanceAt(enrolled, query, cosine, j).value)
  }

  /** The comparison loop: visits the enrolled speakers in order and keeps the one with
      the strictly smallest distance so far. The result is the first nearest speaker
      with its distance, or nobody with an infinite distance when every comparison
      failed. */
  method IdentifySpeaker(enrolled: Dict<NdArray>, query: NdArray,
                         cosine: (NdArray, NdArray) -> Option<real>)
    returns (best: Option<string>, minDistance: Bound)
    requires enrolled.Valid()
    ensures best.None? <==> minDistance.Infinity?
    ensures best.None? <==>
              forall j | 0 <= j < |enrolled.keys| :: DistanceAt(enrolled, query, cosine, j).None?
    ensures best.Some? ==>
              exists k: nat | FirstNearest(enrolled, query, cosine, |enrolled.keys|, k) ::
                enrolled.keys[k] == best.value && DistanceAt(enrolled, query, cosine, k) == Some(minDistance.value)
  {
    best, minDistance := None, Infinity;
    ghost var bestIndex: nat := 0;
    for i := 0 to |enrolled.keys|
      invariant best.None? <==> minDistance.Infinity?
      invariant best.None? <==> forall j | 0 <= j < i :: DistanceAt(enrolled, query, cosine, j).None?
      invariant best.Some? ==>
                  && FirstNearest(enrolled, query, cosine, i, bestIndex)
                  && enrolled.keys[bestIndex] == best.value
                  && DistanceAt(enrolled, query, cosine, bestIndex) == Some(minDistance.value)
    {
      var username := enrolled.keys[i];
      var dist := cosine(query, enrolled.values[username]);
      assert dist == DistanceAt(enrolled, query, cosine, i);
      if dist.Some? && Below(dist.value, minDistance) {
        minDistance := Finite(dist.value);
        best := Some(username);
        bestIndex := i;
      }
    }
  }

  /** Only one position can be the first nearest speaker. */
  lemma FirstNearestUnique(enrolled: Dict<NdArray>, query: NdArray,
                           cosine: (NdArray, NdArray) -> Option<real>, n: nat, k1: nat, k2: nat)
    requires enrolled.Valid() && n <= |enrolled.keys|
    requires FirstNearest(enrolled, query, cosine, n, k1) && FirstNearest(enrolled, query, cosine, n, k2)
    ensures k1 == k2
  {
  }

  /** On an exact tie the earlier speaker wins: a later speaker at the same distance as
      an earlier one is never the first nearest. */
  lemma TieGoesToEarlier(enrolled: Dict<NdArray>, query: NdArray,
                         cosine: (NdArray, NdArray) -> Option<real>, n: nat, i: nat, k: nat)
    requires enrolled.Valid() && n <= |enrolled.keys|
    requires i < k < n && DistanceAt(enrolled, query, cosine, i).Some?
    requires DistanceAt(enrolled, query, cosine, i) == DistanceAt(enrolled, query, cosine, k)
    ensures !FirstNearest(enrolled, query, cosine, n, k)
  {
  }

  /** The decision `best_match_user and min_distance <= threshold`: Python's truth test
      also turns away a user named by the empty string. */
  predicate Recognized(best: Option<string>, minDistance: Bound, threshold: real) {
    best.Some? && best.value != "" && minDistance.Finite? && minDistance.value <= threshold
  }

  /** What a rejection after a scan means: either nobody was found, or the first
      nearest speaker is named by the empty string or lies beyond the threshold. */
  lemma RejectionExplained(enrolled: Dict<NdArray>, query: NdArray, cosine: (NdArray, NdArray) -> Option<real>,
                           best: Option<string>, minDistance: Bound, threshold: real)
    requires enrolled.Valid()
    requires best.None? <==> minDistance.Infinity?
    requires best.None? <==> forall j | 0 <= j < |enrolled.keys| :: DistanceAt(enrolled, query, cosine, j).None?
    requires best.Some? ==>
               exists k: nat | FirstNearest(enrolled, query, cosine, |enrolled.keys|, k) ::
                 enrolled.keys[k] == best.value && DistanceAt(enrolled, query, cosine, k) == Some(minDistance.value)
    requires !Recognized(best, minDistance, threshold)
    ensures forall k: nat | FirstNearest(enrolled, query, cosine, |enrolled.keys|, k) ::
              enrolled.keys[k] == "" || DistanceAt(enrolled, query, cosine, k).value > threshold
  {
    forall k: nat | FirstNearest(enrolled, query, cosine, |enrolled.keys|, k)
      ensures enrolled.keys[k] == "" || DistanceAt(enrolled, query, cosine, k).value > threshold
    {
      var k': nat :| FirstNearest(enrolled, query, cosine, |enrolled.keys|, k') &&
                enrolled.keys[k'] == best.value && DistanceAt(enrolled, query, cosine, k') == Some(minDistance.value);
      FirstNearestUnique(enrolled, query, cosine, |enrolled.keys|, k, k');
    }
  }

  /** Raising the threshold can only turn a rejection into an acceptance. */
  lemma RaisingThresholdOnlyAccepts(best: Option<string>, minDistance: Bound, t1: real, t2: real)
    requires t1 <= t2
    ensures Recognized(best, minDistance, t1) ==> Recognized(best, minDistance, t2)
    ensures !Recognized(best, minDistance, t2) ==> !Recognized(best, minDistance, t1)
  {
  }

  /** The acceptance rule after a scan: a speaker is accepted exactly when the first
      nearest enrolled speaker has a non-empty name and lies within the threshold. */
  lemma AcceptanceCriterion(enrolled: Dict<NdArray>, query: NdArray, cosine: (NdArray, NdArray) -> Option<real>,
                            best: Option<string>, minDistance: Bound, threshold: real)
    requires enrolled.Valid()
    requires best.None? <==> minDistance.Infinity?
    requires best.None? <==> forall j | 0 <= j < |enrolled.keys| :: DistanceAt(enrolled, query, cosine, j).None?
    requires best.Some? ==>
               exists k: nat | FirstNearest(enrolled, query, cosine, |enrolled.keys|, k) ::
                 enrolled.keys[k] == best.value && DistanceAt(enrolled, query, cosine, k) == Some(minDistance.value)
    ensures Recognized(best, minDistance, threshold) <==>
              exists k: nat | FirstNearest(enrolled, query, cosine, |enrolled.keys|, k) ::
                enrolled.keys[k] != "" && DistanceAt(enrolled, query, cosine, k).value <= threshold
  {
    if !Recognized(best, minDistance, threshold) {
      RejectionExplained(enrolled, query, cosine, best, minDistance, threshold);
    }
  }
}
