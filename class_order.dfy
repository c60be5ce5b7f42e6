/**
 * The order of the classifier's classes. A LightGBM classifier keeps `classes_` as the
 * sorted distinct training labels, and the positions of `predict_proba` and of the
 * per-class attributions follow that order. The program looks the predicted label up in
 * `classes_`, but prints `proba[0..2]` under fixed captions: that is right only because
 * the three label strings already are in sorted order.
 */
module ClassOrder {
  import opened Wrappers
  import opened StringOrder
  import opened Labeling
  import opened Encoding

  /** The captions printed beside `proba[0]`, `proba[1]` and `proba[2]`. */
  const ProbabilityCaptions: seq<string> := ["Aprovado", "Aprovado Parcialmente", "Reprovado"]

  /** The `decisao` column of the training frame. */
  function TrainingLabels(records: seq<Candidate>): seq<string>
  {
    seq(|records|, i requires 0 <= i < |records| => Label(records[i].scoreTecnico, records[i].scoreSoftskills))
  }

  /** Every training label is one of the three choices. */
  lemma TrainingLabelsAreChoices(records: seq<Candidate>)
    ensures forall l :: l in TrainingLabels(records) ==> l in Choices
  {
    var y := TrainingLabels(records);
    forall i | 0 <= i < |y| ensures y[i] in Choices {
      LabelIsAChoice(records[i].scoreTecnico, records[i].scoreSoftskills);
    }
  }

  /** The three label strings are in strictly increasing Python order. */
  lemma ChoicesSorted()
    ensures StrictlySorted(Choices)
  {
    PrefixLess("Aprovado", "Aprovado Parcialmente");
    assert Less("Aprovado Parcialmente", "Reprovado");
    NeighboursSorted(Choices);
  }

  /**
   * When all three labels occur in training, `classes_` is exactly the caption list, so
   * each caption stands beside the probability of its own class.
   */
  lemma CaptionsMatchClasses(records: seq<Candidate>, modelClasses: seq<string>)
    requires SortedSetOf(modelClasses, set l | l in TrainingLabels(records))
    requires forall l :: l in Choices ==> l in TrainingLabels(records)
    ensures modelClasses == ProbabilityCaptions
  {
    ChoicesSorted();
    TrainingLabelsAreChoices(records);
    SortedSetUnique(modelClasses, Choices, set l | l in TrainingLabels(records));
  }

  /** When a label never occurs in training, `classes_` is shorter than the caption list. */
  lemma MissingLabelShortensClasses(records: seq<Candidate>, modelClasses: seq<string>, absent: string)
    requires SortedSetOf(modelClasses, set l | l in TrainingLabels(records))
    requires absent in Choices && absent !in TrainingLabels(records)
    ensures |modelClasses| < |ProbabilityCaptions|
  {
    TrainingLabelsAreChoices(records);
    var others := set l | l in Choices && l != absent;
    assert others == {Aprovado, AprovadoParcialmente, Reprovado} - {absent};
    if absent == Aprovado {
      assert others == {AprovadoParcialmente, Reprovado};
    } else if absent == AprovadoParcialmente {
      assert others == {Aprovado, Reprovado};
    } else {
      assert others == {Aprovado, AprovadoParcialmente};
    }
    SortedLengthBound(modelClasses, others);
  }

  /** `list(classes).index(wanted)`: the first position of `wanted`, or none when it is absent. */
  function IndexOf(classes: seq<string>, wanted: string): (r: Option<nat>)
    ensures r.None? <==> wanted !in classes
    ensures r.Some? ==> r.value < |classes| && classes[r.value] == wanted && wanted !in classes[..r.value]
  {
    if classes == [] then None
    else if classes[0] == wanted then Some(0)
    else
      match IndexOf(classes[1..], wanted)
      case None => None
      case Some(k) =>
        assert classes[..k + 1] == [classes[0]] + classes[1..][..k];
        Some(k + 1)
  }

  /** The caption at the predicted class's position is the predicted label itself. */
  lemma PredictedClassCaption(records: seq<Candidate>, modelClasses: seq<string>, predicao: string)
    requires SortedSetOf(modelClasses, set l | l in TrainingLabels(records))
    requires forall l :: l in Choices ==> l in TrainingLabels(records)
    requires predicao in modelClasses
    ensures IndexOf(modelClasses, predicao).Some? && IndexOf(modelClasses, predicao).value < |ProbabilityCaptions|
    ensures ProbabilityCaptions[IndexOf(modelClasses, predicao).value] == predicao
  {
    CaptionsMatchClasses(records, modelClasses);
  }
}
