/** Top-1 selection over the label-to-score map (`calculateTopProbability`). The map is
    modelled as its entries in iteration order; float scores are modelled as reals. */
module TopProbability {

  /** The prediction handed back to the caller: a label and its score. */
  datatype Probability = Probability(title: string, probability: real)

  /** The ten class labels, in the order the scores are emitted. */
  const Labels: seq<string> := ["0", "1", "2", "3", "4", "5", "6", "7", "8", "9"]

  /** The starting candidate: empty label, score 0. */
  const NoneFound := Probability("", 0.0)

  datatype Option<T> = None | Some(value: T)

  /** Pairs each label with the score at the same position, in label order: the label
      map the scores are read through. */
  function LabelProbabilities(labels: seq<string>, scores: seq<real>): (entries: seq<(string, real)>)
    requires |labels| == |scores|
    ensures |entries| == |labels|
  {
    seq(|labels|, i requires 0 <= i < |labels| => (labels[i], scores[i]))
  }

  /** No label occurs twice. */
  predicate Distinct(labels: seq<string>)
  {
    forall i, j :: 0 <= i < j < |labels| ==> labels[i] != labels[j]
  }

  /** Looking a key up in the entries as a map does: the score of the first entry with that key. */
  function ScoreOf(entries: seq<(string, real)>, key: string): Option<real>
  {
    if entries == [] then None
    else if entries[0].0 == key then Some(entries[0].1)
    else ScoreOf(entries[1..], key)
  }

  /** An entry whose key no earlier entry has is what looking that key up finds. */
  lemma {:induction false} ScoreOfFirstKey(entries: seq<(string, real)>, i: int)
    requires 0 <= i < |entries|
    requires forall j :: 0 <= j < i ==> entries[j].0 != entries[i].0
    ensures ScoreOf(entries, entries[i].0) == Some(entries[i].1)
  {
    if i > 0 {
      ScoreOfFirstKey(entries[1..], i - 1);
    }
  }

  /** The ten labels are distinct. */
  lemma LabelsDistinct()
    ensures Distinct(Labels)
  {
  }

  /** With distinct labels the pairing is a faithful label-to-score map: the score found
      under label i is score i, and a key that is no label finds nothing. */
  lemma LabelProbabilitiesIsMap(labels: seq<string>, scores: seq<real>, key: string)
    requires |labels| == |scores| && Distinct(labels)
    ensures forall i :: 0 <= i < |labels| ==> ScoreOf(LabelProbabilities(labels, scores), labels[i]) == Some(scores[i])
    ensures key !in labels ==> ScoreOf(LabelProbabilities(labels, scores), key) == None
  {
    var entries := LabelProbabilities(labels, scores);
    forall i | 0 <= i < |labels|
      ensures ScoreOf(entries, labels[i]) == Some(scores[i])
    {
      ScoreOfFirstKey(entries, i);
    }
    if key !in labels {
      ScoreOfMissing(entries, key);
    }
  }

  /** A key carried by no entry finds nothing. */
  lemma {:induction false} ScoreOfMissing(entries: seq<(string, real)>, key: string)
    requires forall j :: 0 <= j < |entries| ==> entries[j].0 != key
    ensures ScoreOf(entries, key) == None
  {
    if entries != [] {
      ScoreOfMissing(entries[1..], key);
    }
  }

  /** The entry at index k as a prediction. */
  function At(entries: seq<(string, real)>, k: int): Probability
    requires 0 <= k < |entries|
  {
    Probability(entries[k].0, entries[k].1)
  }

  /** One turn of the loop: the entry replaces the candidate only if its score is strictly
      greater. The score never drops, ends up at least the entry's, and a tie keeps the
      earlier candidate. */
  function Step(best: Probability, entry: (string, real)): (next: Probability)
    ensures next.probability >= best.probability && next.probability >= entry.1
    ensures next == best || next == Probability(entry.0, entry.1)
    ensures entry.1 == best.probability ==> next == best
  {
    if entry.1 > best.probability then Probability(entry.0, entry.1) else best
  }

  /** The candidate left after scanning `entries` in order from `NoneFound`. Its score is
      never negative and never below any entry's score. */
  function Top(entries: seq<(string, real)>): (top: Probability)
    ensures top.probability >= 0.0
    ensures forall j :: 0 <= j < |entries| ==> entries[j].1 <= top.probability
  {
    if entries == [] then NoneFound
    else Step(Top(entries[..|entries| - 1]), entries[|entries| - 1])
  }

  /** Entry k holds the maximum score, that score is positive, and every earlier entry
      scores strictly less: k is the first entry in iteration order with the top score. */
  ghost predicate IsFirstMaximum(entries: seq<(string, real)>, k: int)
  {
    && 0 <= k < |entries|
    && entries[k].1 > 0.0
    && (forall j :: 0 <= j < |entries| ==> entries[j].1 <= entries[k].1)
    && (forall j :: 0 <= j < k ==> entries[j].1 < entries[k].1)
  }

  /** The selection yields the sentinel exactly when no score is positive; otherwise it
      yields the first entry holding the maximum score. */
  lemma {:induction false} TopIsFirstMaximum(entries: seq<(string, real)>)
    ensures (forall j :: 0 <= j < |entries| ==> entries[j].1 <= 0.0) <==> Top(entries) == NoneFound
    ensures Top(entries) != NoneFound ==>
              exists k :: IsFirstMaximum(entries, k) && Top(entries) == At(entries, k)
  {
    if entries != [] {
      var n := |entries| - 1;
      var prefix, last := entries[..n], entries[n];
      TopIsFirstMaximum(prefix);
      var t := Top(prefix);
      assert forall j :: 0 <= j < n ==> entries[j] == prefix[j];
      if last.1 > t.probability {
        assert IsFirstMaximum(entries, n);
      } else if t != NoneFound {
        var k :| IsFirstMaximum(prefix, k) && t == At(prefix, k);
        assert IsFirstMaximum(entries, k);
      }
    }
  }

  /** Conversely, whichever entry is the first maximum is the one selected. */
  lemma FirstMaximumIsTop(entries: seq<(string, real)>, k: int)
    requires IsFirstMaximum(entries, k)
    ensures Top(entries) == At(entries, k)
  {
    TopIsFirstMaximum(entries);
    var k' :| IsFirstMaximum(entries, k') && Top(entries) == At(entries, k');
    assert entries[k].1 <= entries[k'].1 && entries[k'].1 <= entries[k].1;
  }

  /** A non-empty label returned is the key of some entry whose score is the one returned. */
  lemma TopComesFromEntries(entries: seq<(string, real)>)
    ensures Top(entries).title != "" ==>
              exists k :: 0 <= k < |entries| && entries[k] == (Top(entries).title, Top(entries).probability)
  {
    TopIsFirstMaximum(entries);
  }

  /** `calculateTopProbability`: scans the entries once, keeping the best label and score. */
  method CalculateTopProbability(labelProb: seq<(string, real)>) returns (top: Probability)
    ensures top == Top(labelProb)
  {
    var maxLabel := "";
    var maxProbability := 0.0;
    for i := 0 to |labelProb|
      invariant Probability(maxLabel, maxProbability) == Top(labelProb[..i])
    {
      var (key, value) := labelProb[i];
      if value > maxProbability {
        maxProbability := value;
        maxLabel := key;
      }
      assert labelProb[..i + 1][..i] == labelProb[..i];
    }
    assert labelProb[..|labelProb|] == labelProb;
    top := Probability(maxLabel, maxProbability);
  }

  /** Scores 0.1, 0.05, 0.3 and seven zeros select label "2" with score 0.3. */
  lemma ArgmaxExample()
    ensures Top(LabelProbabilities(Labels, [0.1, 0.05, 0.3, 0.0, 0.0, 0.0, 0.0, 0.0, 0.0, 0.0]))
            == Probability("2", 0.3)
  {
    var entries := LabelProbabilities(Labels, [0.1, 0.05, 0.3, 0.0, 0.0, 0.0, 0.0, 0.0, 0.0, 0.0]);
    FirstMaximumIsTop(entries, 2);
  }

  /** Equal maxima at labels "3" and "7": the earlier one, "3", wins. */
  lemma TieBreakExample()
    ensures Top(LabelProbabilities(Labels, [0.0, 0.0, 0.0, 0.5, 0.0, 0.0, 0.0, 0.5, 0.0, 0.0]))
            == Probability("3", 0.5)
  {
    var entries := LabelProbabilities(Labels, [0.0, 0.0, 0.0, 0.5, 0.0, 0.0, 0.0, 0.5, 0.0, 0.0]);
    FirstMaximumIsTop(entries, 3);
  }
}
