/**
 * The rule that manufactures the training labels: `np.select` over three overlapping
 * condition rows on `score_tecnico` and `score_softskills`, first match wins, with
 * `'Reprovado'` as the default.
 */
module Labeling {

  /** `np.select` for one record: the choice paired with the first true condition, else the fallback. */
  function Select<T>(conditions: seq<bool>, choices: seq<T>, fallback: T): (r: T)
    requires |conditions| == |choices|
    ensures forall i :: 0 <= i < |conditions| && conditions[i] && (forall j :: 0 <= j < i ==> !conditions[j]) ==> r == choices[i]
    ensures (forall i :: 0 <= i < |conditions| ==> !conditions[i]) ==> r == fallback
  {
    if |conditions| == 0 then fallback
    else if conditions[0] then choices[0]
    else Select(conditions[1..], choices[1..], fallback)
  }

  const Aprovado: string := "Aprovado"
  const AprovadoParcialmente: string := "Aprovado Parcialmente"
  const Reprovado: string := "Reprovado"

  /** The `choices` list, in the order the condition rows are written. */
  const Choices: seq<string> := [Aprovado, AprovadoParcialmente, Reprovado]

  /** Row 1: strong technical score and strong soft skills. */
  predicate ApprovedRow(tecnico: int, softskills: int)
  {
    tecnico >= 80 && softskills >= 4
  }

  /** Row 2: technical score in [65, 80) or soft skills in [3, 4). */
  predicate PartialRow(tecnico: int, softskills: int)
  {
    (65 <= tecnico && tecnico < 80) || (3 <= softskills && softskills < 4)
  }

  /** Row 3: technical score below 65 or soft skills below 3. */
  predicate RejectedRow(tecnico: int, softskills: int)
  {
    tecnico < 65 || softskills < 3
  }

  /** The `conditions` list evaluated on one record. */
  function Conditions(tecnico: int, softskills: int): seq<bool>
  {
    [ApprovedRow(tecnico, softskills), PartialRow(tecnico, softskills), RejectedRow(tecnico, softskills)]
  }

  /** `df['decisao']` for one record. */
  function Label(tecnico: int, softskills: int): string
  {
    Select(Conditions(tecnico, softskills), Choices, Reprovado)
  }

  /** The label by cases, in the order the rows are tried. */
  lemma LabelByRows(tecnico: int, softskills: int)
    ensures Label(tecnico, softskills) ==
      if ApprovedRow(tecnico, softskills) then Aprovado
      else if PartialRow(tecnico, softskills) then AprovadoParcialmente
      else Reprovado
  {
    var c := Conditions(tecnico, softskills);
    if ApprovedRow(tecnico, softskills) {
      assert c[0];
    } else if PartialRow(tecnico, softskills) {
      assert !c[0] && c[1];
    } else {
      assert !c[0] && !c[1] && c[2];
    }
  }

  /** The first row decides whenever it holds, although rows 2 and 3 may hold as well. */
  lemma LabelApprovedIff(tecnico: int, softskills: int)
    ensures Label(tecnico, softskills) == Aprovado <==> ApprovedRow(tecnico, softskills)
  {
    LabelByRows(tecnico, softskills);
  }

  /** "Aprovado Parcialmente" exactly when row 1 fails and row 2 holds. */
  lemma LabelPartialIff(tecnico: int, softskills: int)
    ensures Label(tecnico, softskills) == AprovadoParcialmente
      <==> !ApprovedRow(tecnico, softskills) && PartialRow(tecnico, softskills)
  {
    LabelByRows(tecnico, softskills);
  }

  /** "Reprovado" exactly when rows 1 and 2 both fail. */
  lemma LabelRejectedIff(tecnico: int, softskills: int)
    ensures Label(tecnico, softskills) == Reprovado
      <==> !ApprovedRow(tecnico, softskills) && !PartialRow(tecnico, softskills)
  {
    LabelByRows(tecnico, softskills);
  }

  /** On integer scores some row always holds, so the default is never what decides. */
  lemma RowsCoverAllScores(tecnico: int, softskills: int)
    ensures exists i :: 0 <= i < |Conditions(tecnico, softskills)| && Conditions(tecnico, softskills)[i]
  {
    var c := Conditions(tecnico, softskills);
    if ApprovedRow(tecnico, softskills) {
      assert c[0];
    } else if PartialRow(tecnico, softskills) {
      assert c[1];
    } else {
      assert c[2];
    }
  }

  /** The label is always one of the three choices. */
  lemma LabelIsAChoice(tecnico: int, softskills: int)
    ensures Label(tecnico, softskills) in Choices
  {
    LabelByRows(tecnico, softskills);
  }

  /** Precedence on the two documented records: (70, 5) and (90, 2). */
  lemma PrecedenceExamples()
    ensures Label(70, 5) == AprovadoParcialmente
    ensures Label(90, 2) == Reprovado
  {
    LabelByRows(70, 5);
    LabelByRows(90, 2);
  }
}
