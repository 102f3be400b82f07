/**
 * Label selection from the two classifiers' output vectors
 * (app/main.py:13-15, 123, 126): the label is the entry of a fixed list at
 * the first index of the highest score. The scores stand in for the float
 * outputs of the networks; only their order matters.
 */
module Classifier {

  /** The age classifier's eight output units, in output order. */
  const AgeBuckets: seq<string> :=
    ["(0-2)", "(4-6)", "(8-12)", "(15-20)", "(25-32)", "(38-43)", "(48-53)", "(60-100)"]

  /** The gender classifier's two output units, in output order. */
  const GenderList: seq<string> := ["Male", "Female"]

  /** The two label lists have the sizes of the networks' output layers, with no label repeated. */
  lemma LabelListsShape()
    ensures |AgeBuckets| == 8 && |GenderList| == 2
    ensures forall i, j :: 0 <= i < j < |AgeBuckets| ==> AgeBuckets[i] != AgeBuckets[j]
    ensures GenderList[0] != GenderList[1]
  {
  }

  /** `k` is the first position of a maximum of `scores`. */
  predicate IsFirstMax(scores: seq<int>, k: nat) {
    k < |scores|
    && (forall j :: 0 <= j < |scores| ==> scores[j] <= scores[k])
    && (forall j :: 0 <= j < k ==> scores[j] < scores[k])
  }

  /** numpy's `argmax` on a non-empty vector: ties go to the lowest index. */
  function ArgMax(scores: seq<int>): (k: nat)
    requires |scores| > 0
    ensures IsFirstMax(scores, k)
  {
    if |scores| == 1 then 0
    else
      var k := ArgMax(scores[..|scores| - 1]);
      if scores[|scores| - 1] > scores[k] then |scores| - 1 else k
  }

  /** There is only one first maximum, so `ArgMax` is determined by `IsFirstMax`. */
  lemma FirstMaxUnique(scores: seq<int>, k: nat, k': nat)
    requires IsFirstMax(scores, k) && IsFirstMax(scores, k')
    ensures k == k'
  {
    // Both are maxima, so they score the same; neither can lie strictly before the other.
    assert scores[k] == scores[k'];
  }

  /** The label at the argmax of `scores`: `labels[scores.argmax()]`. */
  function Select(labels: seq<string>, scores: seq<int>): (s: string)
    requires |scores| == |labels| > 0
    ensures s in labels
    ensures exists k: nat :: IsFirstMax(scores, k) && s == labels[k]
  {
    var k := ArgMax(scores);
    assert IsFirstMax(scores, k) && labels[k] == labels[k];
    labels[k]
  }

  /** A unit scoring strictly above every other unit gives its own label. */
  lemma StrictWinnerSelected(labels: seq<string>, scores: seq<int>, i: nat)
    requires |scores| == |labels| && i < |scores|
    requires forall j :: 0 <= j < |scores| && j != i ==> scores[j] < scores[i]
    ensures Select(labels, scores) == labels[i]
  {
  }

  /** Equal top scores are resolved in favour of the earlier label. */
  lemma TieGoesToLowerIndex(labels: seq<string>, scores: seq<int>, i: nat, j: nat)
    requires |scores| == |labels| && i < j < |scores|
    requires scores[i] == scores[j]
    requires forall t :: 0 <= t < |scores| ==> scores[t] <= scores[i]
    ensures ArgMax(scores) != j
  {
  }

  /** Concrete vectors: the age unit (25-32) wins; a gender tie gives "Male". */
  lemma Examples()
    ensures Select(AgeBuckets, [1, 2, 3, 4, 9, 5, 2, 1]) == "(25-32)"
    ensures Select(GenderList, [7, 7]) == "Male"
  {
    StrictWinnerSelected(AgeBuckets, [1, 2, 3, 4, 9, 5, 2, 1], 4);
    GenderTieArgMax();
  }

  lemma GenderTieArgMax()
    ensures ArgMax([7, 7]) == 0
  {
    assert IsFirstMax([7, 7], 0);
    FirstMaxUnique([7, 7], 0, ArgMax([7, 7]));
  }

}
