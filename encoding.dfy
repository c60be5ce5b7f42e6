/**
 * Encoding of a candidate record into the feature row the classifier sees: the ordinal
 * code of `formacao`, one 0/1 indicator per language known to the binarizer, and the
 * final reindex against the training columns `X.columns`.
 */
module Encoding {
  import opened Wrappers
  import opened StringOrder
  import opened Labeling

  /** One cell of a pandas frame: an integer, NaN, a string, or a list of strings. */
  datatype Cell = Num(n: int) | Missing | Text(s: string) | Items(items: seq<string>)

  /** One frame row: (column label, cell) pairs in column order. */
  type Row = seq<(string, Cell)>

  /** One candidate record with its fields already parsed to their types. */
  datatype Candidate = Candidate(
    experienciaAnos: int,
    formacao: string,
    scoreTecnico: int,
    scoreSoftskills: int,
    tempoUltimoEmprego: int,
    linguagens: seq<string>)

  /** The languages the data generator draws from and the form offers. */
  const Languages: seq<string> := ["Python", "Java", "JavaScript", "C++", "SQL"]

  /** The same languages in Python's string order, the order the binarizer keeps. */
  const SortedLanguages: seq<string> := ["C++", "Java", "JavaScript", "Python", "SQL"]

  /** The scalar columns of the raw frame, in the order of its dictionary. */
  const BaseColumns: seq<string> :=
    ["experiencia_anos", "formacao", "score_tecnico", "score_softskills", "tempo_ultimo_emprego"]

  const LanguagesColumn: string := "linguagens"
  const LabelColumn: string := "decisao"

  /** The columns of the raw generated frame. */
  const RawColumns: seq<string> := BaseColumns + [LanguagesColumn]

  /** The ordinal table applied to `formacao` by `.map`. */
  const FormacaoOrdinal: map<string, int> := map["Graduação" := 0, "Mestrado" := 1, "Bootcamp" := 2]

  // ---------------------------------------------------------------------------
  // formacao

  /** `.map(FormacaoOrdinal)` on one value: a value outside the table becomes missing. */
  function FormacaoCode(formacao: string): (r: Option<int>)
    ensures r.None? <==> formacao !in FormacaoOrdinal
    ensures r.Some? ==> 0 <= r.value <= 2
  {
    if formacao in FormacaoOrdinal then Some(FormacaoOrdinal[formacao]) else None
  }

  /** The three levels get the codes 0, 1, 2, and no two levels share a code. */
  lemma FormacaoCodeBijective(a: string, b: string)
    ensures FormacaoCode("Graduação") == Some(0)
    ensures FormacaoCode("Mestrado") == Some(1)
    ensures FormacaoCode("Bootcamp") == Some(2)
    ensures FormacaoCode(a).Some? && FormacaoCode(a) == FormacaoCode(b) ==> a == b
  {
  }

  /** The `formacao` cell of the encoded frame. */
  function FormacaoCell(formacao: string): Cell
  {
    match FormacaoCode(formacao)
    case Some(n) => Num(n)
    case None => Missing
  }

  // ---------------------------------------------------------------------------
  // Language binarizer

  /** Every label that occurs in the training `linguagens` column. */
  ghost function LabelsIn(samples: seq<seq<string>>): set<string>
  {
    set s, l | s in samples && l in s :: l
  }

  /** `mlb.classes_` after `fit_transform` on the training `linguagens` column. */
  function MlbClasses(samples: seq<seq<string>>): seq<string>
  {
    Restrict(SortedLanguages, set l | l in SortedLanguages && exists s :: s in samples && l in s)
  }

  lemma SortedLanguagesSorted()
    ensures StrictlySorted(SortedLanguages)
  {
    assert Less("C++", "Java");
    PrefixLess("Java", "JavaScript");
    assert Less("JavaScript", "Python");
    assert Less("Python", "SQL");
    NeighboursSorted(SortedLanguages);
  }

  /** The binarizer's classes are the labels seen in training, sorted, each once. */
  lemma MlbClassesAreSortedLabels(samples: seq<seq<string>>)
    requires forall s, l :: s in samples && l in s ==> l in Languages
    ensures SortedSetOf(MlbClasses(samples), LabelsIn(samples))
  {
    SortedLanguagesSorted();
    var classes := MlbClasses(samples);
    forall x ensures x in classes <==> x in LabelsIn(samples) {
      if x in LabelsIn(samples) {
        var s :| s in samples && x in s;
        assert x in Languages;
      }
    }
  }

  /** `mlb.transform([linguagens])` as named cells: 1 for a selected class, else 0. */
  function LanguageCells(classes: seq<string>, linguagens: seq<string>): Row
  {
    seq(|classes|, i requires 0 <= i < |classes| =>
      (classes[i], Num(if classes[i] in linguagens then 1 else 0)))
  }

  // ---------------------------------------------------------------------------
  // Rows and columns

  function Names(row: Row): seq<string>
  {
    seq(|row|, i requires 0 <= i < |row| => row[i].0)
  }

  predicate Distinct(s: seq<string>)
  {
    forall i, j :: 0 <= i < j < |s| ==> s[i] != s[j]
  }

  /** The record as one row of a frame built from its dictionary, `linguagens` still a list. */
  function RawRow(c: Candidate): Row
  {
    [ ("experiencia_anos", Num(c.experienciaAnos)),
      ("formacao", Text(c.formacao)),
      ("score_tecnico", Num(c.scoreTecnico)),
      ("score_softskills", Num(c.scoreSoftskills)),
      ("tempo_ultimo_emprego", Num(c.tempoUltimoEmprego)),
      (LanguagesColumn, Items(c.linguagens)) ]
  }

  /** `.map(FormacaoOrdinal)` on one cell: anything that is not a key becomes NaN. */
  function FormacaoValue(cell: Cell): Cell
  {
    match cell
    case Text(f) => FormacaoCell(f)
    case _ => Missing
  }

  /** The `formacao` column replaced by its ordinal codes; every other column as it was. */
  function MapFormacao(row: Row): Row
  {
    seq(|row|, i requires 0 <= i < |row| =>
      if row[i].0 == "formacao" then (row[i].0, FormacaoValue(row[i].1)) else row[i])
  }

  /** `drop(name, axis=1)` on a row: every cell under label `name` goes. */
  function DropCells(row: Row, name: string): (r: Row)
    ensures Names(r) == Drop(Names(row), name)
  {
    if row == [] then []
    else
      assert Names(row) == [row[0].0] + Names(row[1..]);
      if row[0].0 == name then DropCells(row[1..], name)
      else
        assert Names([row[0]] + DropCells(row[1..], name)) == [row[0].0] + Names(DropCells(row[1..], name));
        [row[0]] + DropCells(row[1..], name)
  }

  lemma {:induction false} DropCellsAbsent(row: Row, name: string)
    requires name !in Names(row)
    ensures DropCells(row, name) == row
  {
    if row != [] {
      assert Names(row)[0] == row[0].0;
      assert Names(row[1..]) == Names(row)[1..];
      DropCellsAbsent(row[1..], name);
    }
  }

  lemma {:induction false} DropCellsAppend(a: Row, b: Row, name: string)
    ensures DropCells(a + b, name) == DropCells(a, name) + DropCells(b, name)
  {
    if a == [] {
      assert a + b == b;
    } else {
      assert (a + b)[0] == a[0] && (a + b)[1..] == a[1..] + b;
      DropCellsAppend(a[1..], b, name);
    }
  }

  /** The scalar cells after encoding: the record's integers and the ordinal `formacao`. */
  function ScalarCells(c: Candidate): Row
  {
    [ ("experiencia_anos", Num(c.experienciaAnos)),
      ("formacao", FormacaoCell(c.formacao)),
      ("score_tecnico", Num(c.scoreTecnico)),
      ("score_softskills", Num(c.scoreSoftskills)),
      ("tempo_ultimo_emprego", Num(c.tempoUltimoEmprego)) ]
  }

  /**
   * `df_final` before reindexing: the record's one-row frame, `formacao` mapped,
   * `linguagens` dropped, and the binarizer's indicators appended.
   */
  function WorkingRow(c: Candidate, classes: seq<string>): Row
  {
    DropCells(MapFormacao(RawRow(c)), LanguagesColumn) + LanguageCells(classes, c.linguagens)
  }

  /** The record's scalar cells without `linguagens`, `formacao` still a string. */
  lemma DropLanguagesFromRaw(c: Candidate)
    ensures DropCells(RawRow(c), LanguagesColumn) == RawRow(c)[..5]
    ensures MapFormacao(RawRow(c)) == ScalarCells(c) + [(LanguagesColumn, Items(c.linguagens))]
  {
    var raw := RawRow(c);
    assert raw == raw[..5] + [raw[5]];
    DropCellsAppend(raw[..5], [raw[5]], LanguagesColumn);
    DropCellsAbsent(raw[..5], LanguagesColumn);
    assert DropCells([raw[5]], LanguagesColumn) == [];
  }

  /** Whatever the order of its steps, the working row is the scalar cells and then the indicators. */
  lemma WorkingRowShape(c: Candidate, classes: seq<string>)
    ensures WorkingRow(c, classes) == ScalarCells(c) + LanguageCells(classes, c.linguagens)
  {
    DropLanguagesFromRaw(c);
    var sc := ScalarCells(c);
    DropCellsAppend(sc, [(LanguagesColumn, Items(c.linguagens))], LanguagesColumn);
    DropCellsAbsent(sc, LanguagesColumn);
    assert DropCells([(LanguagesColumn, Items(c.linguagens))], LanguagesColumn) == [];
  }

  /**
   * The row a record contributes to the training matrix `X`: its dictionary row with
   * `linguagens` replaced by the `fit_transform` indicators, the `decisao` label appended,
   * every column but `decisao` selected, and finally `formacao` mapped to its code.
   */
  function TrainingRow(c: Candidate, classes: seq<string>): Row
  {
    var encoded := DropCells(RawRow(c), LanguagesColumn) + LanguageCells(classes, c.linguagens);
    var labelled := encoded + [(LabelColumn, Text(Label(c.scoreTecnico, c.scoreSoftskills)))];
    MapFormacao(DropCells(labelled, LabelColumn))
  }

  /** The cell under label `name`, if the row has that column. */
  function Lookup(row: Row, name: string): (r: Option<Cell>)
    ensures r.None? <==> name !in Names(row)
    ensures r.Some? ==> exists j :: 0 <= j < |row| && row[j] == (name, r.value)
  {
    if row == [] then None
    else if row[0].0 == name then
      assert Names(row)[0] == name;
      Some(row[0].1)
    else
      assert Names(row) == [row[0].0] + Names(row[1..]);
      var r := Lookup(row[1..], name);
      assert r.Some? ==> exists j :: 0 <= j < |row| && row[j] == (name, r.value) by {
        if r.Some? {
          var j :| 0 <= j < |row[1..]| && row[1..][j] == (name, r.value);
          assert row[j + 1] == (name, r.value);
        }
      }
      r
  }

  /**
   * `reindex(columns=columns, fill_value=0)`: the row takes exactly the given columns in
   * their order; a column the row has keeps its cell, a column it lacks is 0, and every
   * other column of the row is dropped.
   */
  function Reindex(row: Row, columns: seq<string>): (r: Row)
    requires Distinct(Names(row))
    ensures Names(r) == columns
    ensures forall i, j :: 0 <= i < |columns| && 0 <= j < |row| && row[j].0 == columns[i] ==> r[i].1 == row[j].1
    ensures forall i :: 0 <= i < |columns| && columns[i] !in Names(row) ==> r[i].1 == Num(0)
  {
    var r := seq(|columns|, i requires 0 <= i < |columns| =>
      (columns[i], match Lookup(row, columns[i]) case Some(v) => v case None => Num(0)));
    assert forall i, j :: 0 <= i < |columns| && 0 <= j < |row| && row[j].0 == columns[i] ==> r[i].1 == row[j].1 by {
      forall i, j | 0 <= i < |columns| && 0 <= j < |row| && row[j].0 == columns[i] ensures r[i].1 == row[j].1 {
        assert Names(row)[j] == columns[i];
        var k :| 0 <= k < |row| && row[k] == (columns[i], Lookup(row, columns[i]).value);
        assert Names(row)[k] == columns[i];
      }
    }
    r
  }

  /** A row already laid out as `columns` is left as it is. */
  lemma ReindexAligned(row: Row, columns: seq<string>)
    requires Distinct(Names(row)) && Names(row) == columns
    ensures Reindex(row, columns) == row
  {
    var r := Reindex(row, columns);
    forall i | 0 <= i < |row| ensures r[i] == row[i] {
      assert Names(r)[i] == columns[i] == Names(row)[i];
    }
  }

  /** Reindexing twice against the same column list changes nothing more. */
  lemma ReindexIdempotent(row: Row, columns: seq<string>)
    requires Distinct(Names(row)) && Distinct(columns)
    ensures Distinct(Names(Reindex(row, columns)))
    ensures Reindex(Reindex(row, columns), columns) == Reindex(row, columns)
  {
    ReindexAligned(Reindex(row, columns), columns);
  }

  // ---------------------------------------------------------------------------
  // The training schema

  /** `df.drop(name, axis=1)` on a column list: every column labelled `name` goes. */
  function Drop(columns: seq<string>, name: string): (r: seq<string>)
    ensures forall x :: x in r <==> x in columns && x != name
  {
    if columns == [] then []
    else if columns[0] == name then Drop(columns[1..], name)
    else [columns[0]] + Drop(columns[1..], name)
  }

  lemma {:induction false} DropAbsent(columns: seq<string>, name: string)
    requires name !in columns
    ensures Drop(columns, name) == columns
  {
    if columns != [] {
      DropAbsent(columns[1..], name);
    }
  }

  lemma {:induction false} DropAppend(a: seq<string>, b: seq<string>, name: string)
    ensures Drop(a + b, name) == Drop(a, name) + Drop(b, name)
  {
    if a == [] {
      assert a + b == b;
    } else {
      assert (a + b)[0] == a[0] && (a + b)[1..] == a[1..] + b;
      DropAppend(a[1..], b, name);
    }
  }

  /**
   * `X.columns`: the raw frame loses `linguagens` and gains the binarizer's classes, the
   * label column `decisao` is appended, and the features are every column but the label.
   */
  function FeatureColumns(classes: seq<string>): seq<string>
  {
    Drop(Drop(RawColumns, LanguagesColumn) + classes + [LabelColumn], LabelColumn)
  }

  /** The schema is the five scalar columns followed by the language classes. */
  lemma FeatureColumnsLayout(classes: seq<string>)
    requires LabelColumn !in classes && LanguagesColumn !in classes
    ensures FeatureColumns(classes) == BaseColumns + classes
  {
    DropAppend(BaseColumns, [LanguagesColumn], LanguagesColumn);
    DropAbsent(BaseColumns, LanguagesColumn);
    assert Drop([LanguagesColumn], LanguagesColumn) == [];
    assert Drop(RawColumns, LanguagesColumn) == BaseColumns;
    assert BaseColumns + classes + [LabelColumn] == (BaseColumns + classes) + [LabelColumn];
    DropAppend(BaseColumns + classes, [LabelColumn], LabelColumn);
    assert Drop([LabelColumn], LabelColumn) == [];
    DropAppend(BaseColumns, classes, LabelColumn);
    DropAbsent(BaseColumns, LabelColumn);
    DropAbsent(classes, LabelColumn);
  }

  /** A class list the binarizer can hold next to the scalar columns without a clash. */
  predicate ValidVocabulary(classes: seq<string>)
  {
    Distinct(classes) && forall l :: l in classes ==> l !in BaseColumns
  }

  /** No language shares its name with a column of the raw frame or the label column. */
  lemma LanguagesAreNotColumns()
    ensures forall l :: l in SortedLanguages ==> l !in RawColumns && l != LabelColumn
  {
    forall i | 0 <= i < |SortedLanguages| ensures SortedLanguages[i] !in RawColumns && SortedLanguages[i] != LabelColumn {
      var l := SortedLanguages[i];
      forall k | 0 <= k < |RawColumns| ensures RawColumns[k] != l {
        assert RawColumns[k][0] != l[0];
      }
    }
  }

  /** The binarizer's classes never repeat and never clash with a scalar or label column. */
  lemma MlbClassesValid(samples: seq<seq<string>>)
    ensures ValidVocabulary(MlbClasses(samples))
    ensures LabelColumn !in MlbClasses(samples) && LanguagesColumn !in MlbClasses(samples)
  {
    SortedLanguagesSorted();
    LanguagesAreNotColumns();
    var classes := MlbClasses(samples);
    assert StrictlySorted(classes);
    forall i, j | 0 <= i < j < |classes| ensures classes[i] != classes[j] {
      SortedHasNoRepeats(classes, i, j);
    }
    assert forall l :: l in classes ==> l in SortedLanguages;
  }

  lemma WorkingRowNames(c: Candidate, classes: seq<string>)
    ensures Names(WorkingRow(c, classes)) == BaseColumns + classes
  {
    WorkingRowShape(c, classes);
  }

  lemma WorkingRowDistinct(c: Candidate, classes: seq<string>)
    requires ValidVocabulary(classes)
    ensures Distinct(Names(WorkingRow(c, classes)))
  {
    WorkingRowNames(c, classes);
    var names := BaseColumns + classes;
    forall i, j | 0 <= i < j < |names| ensures names[i] != names[j] {
      if j >= 5 && i < 5 {
        assert names[j] == classes[j - 5];
        assert names[i] in BaseColumns;
      }
    }
  }

  // ---------------------------------------------------------------------------
  // processar_entrada

  /** The encoded row of one record, aligned to `columns`. */
  function ProcessarEntrada(c: Candidate, classes: seq<string>, columns: seq<string>): (r: Row)
    requires ValidVocabulary(classes)
    ensures Names(r) == columns
  {
    WorkingRowDistinct(c, classes);
    Reindex(WorkingRow(c, classes), columns)
  }

  /** The training path, step by step, ends at the scalar cells followed by the indicators. */
  lemma TrainingRowShape(c: Candidate, classes: seq<string>)
    requires ValidVocabulary(classes) && LabelColumn !in classes
    ensures TrainingRow(c, classes) == ScalarCells(c) + LanguageCells(classes, c.linguagens)
  {
    DropLanguagesFromRaw(c);
    var lc := LanguageCells(classes, c.linguagens);
    var encoded := RawRow(c)[..5] + lc;
    var labelCell := (LabelColumn, Text(Label(c.scoreTecnico, c.scoreSoftskills)));
    assert Names(encoded) == Names(RawRow(c)[..5]) + classes;
    assert LabelColumn !in Names(encoded);
    DropCellsAppend(encoded, [labelCell], LabelColumn);
    DropCellsAbsent(encoded, LabelColumn);
    assert DropCells([labelCell], LabelColumn) == [];
    var mapped := MapFormacao(encoded);
    forall i | 0 <= i < |encoded| ensures mapped[i] == (ScalarCells(c) + lc)[i] {
      if i >= 5 {
        assert encoded[i] == lc[i - 5] && lc[i - 5].0 == classes[i - 5];
        assert classes[i - 5] in classes;
        assert "formacao" in BaseColumns;
      } else {
        assert encoded[i] == RawRow(c)[i];
      }
    }
  }

  /**
   * Training and inference agree: against the training columns, the encoded row of a
   * record is exactly the row that record contributed to the training matrix `X`.
   */
  lemma TrainingAndInferenceAgree(c: Candidate, classes: seq<string>)
    requires ValidVocabulary(classes) && LabelColumn !in classes && LanguagesColumn !in classes
    ensures ProcessarEntrada(c, classes, FeatureColumns(classes)) == TrainingRow(c, classes)
  {
    FeatureColumnsLayout(classes);
    WorkingRowNames(c, classes);
    WorkingRowDistinct(c, classes);
    ReindexAligned(WorkingRow(c, classes), FeatureColumns(classes));
    WorkingRowShape(c, classes);
    TrainingRowShape(c, classes);
  }

  /** Each language column holds 1 exactly when that language was selected, and 0 otherwise. */
  lemma LanguageColumnIff(c: Candidate, classes: seq<string>, columns: seq<string>, i: nat)
    requires ValidVocabulary(classes) && i < |columns| && columns[i] in classes
    ensures ProcessarEntrada(c, classes, columns)[i].1 == Num(1) <==> columns[i] in c.linguagens
    ensures ProcessarEntrada(c, classes, columns)[i].1 == Num(0) <==> columns[i] !in c.linguagens
  {
    WorkingRowShape(c, classes);
    var w := WorkingRow(c, classes);
    var k :| 0 <= k < |classes| && classes[k] == columns[i];
    assert w[5 + k] == (columns[i], Num(if columns[i] in c.linguagens then 1 else 0));
  }

  /** The scalar fields are copied; an unknown `formacao` stays missing and is not zero-filled. */
  lemma ScalarColumns(c: Candidate, classes: seq<string>, columns: seq<string>, i: nat)
    requires ValidVocabulary(classes) && i < |columns|
    ensures columns[i] == "experiencia_anos" ==> ProcessarEntrada(c, classes, columns)[i].1 == Num(c.experienciaAnos)
    ensures columns[i] == "formacao" ==> ProcessarEntrada(c, classes, columns)[i].1 == FormacaoCell(c.formacao)
    ensures columns[i] == "score_tecnico" ==> ProcessarEntrada(c, classes, columns)[i].1 == Num(c.scoreTecnico)
    ensures columns[i] == "score_softskills" ==> ProcessarEntrada(c, classes, columns)[i].1 == Num(c.scoreSoftskills)
    ensures columns[i] == "tempo_ultimo_emprego" ==> ProcessarEntrada(c, classes, columns)[i].1 == Num(c.tempoUltimoEmprego)
  {
    WorkingRowShape(c, classes);
    var w := WorkingRow(c, classes);
    assert w[0].0 == "experiencia_anos" && w[1].0 == "formacao" && w[2].0 == "score_tecnico";
    assert w[3].0 == "score_softskills" && w[4].0 == "tempo_ultimo_emprego";
  }

  /** A schema column the record does not produce is filled with 0. */
  lemma AbsentColumnIsZero(c: Candidate, classes: seq<string>, columns: seq<string>, i: nat)
    requires ValidVocabulary(classes) && i < |columns|
    requires columns[i] !in BaseColumns && columns[i] !in classes
    ensures ProcessarEntrada(c, classes, columns)[i].1 == Num(0)
  {
    WorkingRowNames(c, classes);
  }

  /** A selected language outside the binarizer's classes leaves no trace in the row. */
  lemma UnknownLanguagesIgnored(c: Candidate, d: Candidate, classes: seq<string>, columns: seq<string>)
    requires ValidVocabulary(classes)
    requires d == c.(linguagens := d.linguagens)
    requires forall l :: l in classes ==> (l in c.linguagens <==> l in d.linguagens)
    ensures ProcessarEntrada(c, classes, columns) == ProcessarEntrada(d, classes, columns)
  {
    WorkingRowShape(c, classes);
    WorkingRowShape(d, classes);
    assert LanguageCells(classes, c.linguagens) == LanguageCells(classes, d.linguagens);
    assert WorkingRow(c, classes) == WorkingRow(d, classes);
  }
}
