/**
 * The explanation half of `classificar`: the position of the predicted class, the three
 * features with the largest absolute attribution, their display names, and the list of
 * (name, value, impact) entries built from them. LightGBM's prediction and SHAP's
 * attributions are foreign computations; they enter as function parameters.
 */
module Explanation {
  import opened Wrappers
  import opened Encoding
  import opened ClassOrder

  function Abs(x: int): nat
  {
    if x < 0 then -x else x
  }

  function Min(a: nat, b: nat): nat
  {
    if a < b then a else b
  }

  // ---------------------------------------------------------------------------
  // Top-k by absolute attribution

  /**
   * `top` lists the first `k` positions of an ordering of `values` by decreasing absolute
   * value: min(k, n) distinct valid indices, magnitudes never increasing, and no index left
   * out with a larger magnitude than one taken. The order among equal magnitudes is open.
   */
  ghost predicate IsTopK(values: seq<int>, k: nat, top: seq<nat>)
  {
    && |top| == Min(k, |values|)
    && (forall i :: 0 <= i < |top| ==> top[i] < |values|)
    && (forall i, j :: 0 <= i < j < |top| ==> top[i] != top[j])
    && (forall i, j :: 0 <= i < j < |top| ==> Abs(values[top[j]]) <= Abs(values[top[i]]))
    && (forall m, i :: 0 <= m < |values| && m !in top && 0 <= i < |top| ==> Abs(values[m]) <= Abs(values[top[i]]))
  }

  /** Fewer than `n` entries cannot cover every index below `n`. */
  lemma {:induction false} MissingIndex(s: seq<nat>, n: nat)
    requires |s| < n
    ensures exists m :: 0 <= m < n && m !in s
    decreases n
  {
    if n - 1 in s {
      var p :| 0 <= p < |s| && s[p] == n - 1;
      var rest := s[..p] + s[p + 1..];
      assert s == s[..p] + [s[p]] + s[p + 1..];
      MissingIndex(rest, n - 1);
      var m :| 0 <= m < n - 1 && m !in rest;
      assert m !in s;
    }
  }

  /**
   * What holds of the indices taken so far: valid, distinct, magnitudes never increasing,
   * no untaken index larger than a taken one, and ties taken lowest index first.
   */
  ghost predicate TopPrefix(values: seq<int>, top: seq<nat>)
  {
    && (forall i :: 0 <= i < |top| ==> top[i] < |values|)
    && (forall i, j :: 0 <= i < j < |top| ==> top[i] != top[j])
    && (forall i, j :: 0 <= i < j < |top| ==> Abs(values[top[j]]) <= Abs(values[top[i]]))
    && (forall m, i :: 0 <= m < |values| && m !in top && 0 <= i < |top| ==> Abs(values[m]) <= Abs(values[top[i]]))
    && (forall i, m :: 0 <= i < |top| && 0 <= m < top[i] && m !in top[..i] ==> Abs(values[m]) < Abs(values[top[i]]))
  }

  /** Taking the first largest untaken index keeps the prefix property. */
  lemma TopPrefixExtend(values: seq<int>, top: seq<nat>, best: nat)
    requires TopPrefix(values, top)
    requires best < |values| && best !in top
    requires forall m :: 0 <= m < |values| && m !in top ==> Abs(values[m]) <= Abs(values[best])
    requires forall m :: 0 <= m < best && m !in top ==> Abs(values[m]) < Abs(values[best])
    ensures TopPrefix(values, top + [best])
  {
    var t := top + [best];
    assert t[..|top|] == top;
    forall i | 0 <= i < |t| ensures t[..i] == if i < |top| then top[..i] else top {
    }
    forall m, i | 0 <= m < |values| && m !in t && 0 <= i < |t| ensures Abs(values[m]) <= Abs(values[t[i]]) {
      assert m !in top;
    }
  }

  /**
   * The index of largest magnitude among those not in `top`, the lowest such index on a
   * tie: one step of `np.argsort(-np.abs(values))`.
   */
  method LargestUntaken(values: seq<int>, top: seq<nat>) returns (best: nat)
    requires |top| < |values|
    ensures best < |values| && best !in top
    ensures forall m :: 0 <= m < |values| && m !in top ==> Abs(values[m]) <= Abs(values[best])
    ensures forall m :: 0 <= m < best && m !in top ==> Abs(values[m]) < Abs(values[best])
  {
    MissingIndex(top, |values|);
    var found := false;
    best := 0;
    var j := 0;
    while j < |values|
      invariant 0 <= j <= |values|
      invariant found ==> best < j && best !in top
      invariant !found ==> forall m :: 0 <= m < j ==> m in top
      invariant found ==> forall m :: 0 <= m < j && m !in top ==> Abs(values[m]) <= Abs(values[best])
      invariant found ==> forall m :: 0 <= m < best && m !in top ==> Abs(values[m]) < Abs(values[best])
    {
      if j !in top && (!found || Abs(values[j]) > Abs(values[best])) {
        found, best := true, j;
      }
      j := j + 1;
    }
  }

  /**
   * `np.argsort(-np.abs(values))[:k]`: take the largest untaken magnitude `k` times. Ties
   * go to the lower index, one of the orders the unstable sort may give.
   */
  method TopFeatures(values: seq<int>, k: nat) returns (top: seq<nat>)
    ensures IsTopK(values, k, top)
    ensures forall i, m :: 0 <= i < |top| && 0 <= m < top[i] && m !in top[..i] ==> Abs(values[m]) < Abs(values[top[i]])
  {
    top := [];
    while |top| < k && |top| < |values|
      invariant |top| <= Min(k, |values|)
      invariant TopPrefix(values, top)
      decreases |values| - |top|
    {
      var best := LargestUntaken(values, top);
      TopPrefixExtend(values, top, best);
      top := top + [best];
    }
  }

  // ---------------------------------------------------------------------------
  // Display names

  /** The translation table for feature names. */
  const Traducao: map<string, string> := map[
    "formacao" := "Formação",
    "score_tecnico" := "Pontuação Técnica",
    "score_softskills" := "Soft Skills",
    "tempo_ultimo_emprego" := "Meses Desempregado"]

  /** `traducao.get(feature, feature)`. */
  function DisplayName(feature: string): string
  {
    if feature in Traducao then Traducao[feature] else feature
  }

  /** The four translated features get their labels; every other name passes through. */
  lemma DisplayNameTable(feature: string)
    ensures DisplayName("formacao") == "Formação"
    ensures DisplayName("score_tecnico") == "Pontuação Técnica"
    ensures DisplayName("score_softskills") == "Soft Skills"
    ensures DisplayName("tempo_ultimo_emprego") == "Meses Desempregado"
    ensures DisplayName(feature) == feature <==> feature !in Traducao
  {
  }

  /** The four display labels differ from each other and from every schema column. */
  lemma DisplayLabelsAreFresh()
    ensures forall f, g :: f in Traducao && g in Traducao && f != g ==> Traducao[f] != Traducao[g]
    ensures forall v :: v in Traducao.Values ==> v !in BaseColumns && v !in SortedLanguages
  {
    forall v | v in Traducao.Values ensures v !in BaseColumns && v !in SortedLanguages {
      forall k | 0 <= k < |BaseColumns| ensures BaseColumns[k] != v {
        assert BaseColumns[k][0] != v[0];
      }
      forall k | 0 <= k < |SortedLanguages| ensures SortedLanguages[k] != v {
        assert SortedLanguages[k][0] != v[0] || SortedLanguages[k][1] != v[1];
      }
    }
  }

  /** Names that are not themselves display labels are never shown alike. */
  lemma DisplayNameInjective(a: string, b: string)
    requires a !in Traducao.Values && b !in Traducao.Values
    requires DisplayName(a) == DisplayName(b)
    ensures a == b
  {
    DisplayLabelsAreFresh();
    if a in Traducao {
      assert Traducao[a] in Traducao.Values;
    }
    if b in Traducao {
      assert Traducao[b] in Traducao.Values;
    }
  }

  /** No two features of the training schema are shown under the same name. */
  lemma DisplayNameInjectiveOnSchema(samples: seq<seq<string>>, a: string, b: string)
    requires a in FeatureColumns(MlbClasses(samples)) && b in FeatureColumns(MlbClasses(samples))
    requires DisplayName(a) == DisplayName(b)
    ensures a == b
  {
    var classes := MlbClasses(samples);
    MlbClassesValid(samples);
    FeatureColumnsLayout(classes);
    DisplayLabelsAreFresh();
    assert forall x :: x in classes ==> x in SortedLanguages;
    assert a in BaseColumns || a in classes;
    assert b in BaseColumns || b in classes;
    DisplayNameInjective(a, b);
  }

  // ---------------------------------------------------------------------------
  // Explanation entries

  /** One line of the explanation: display name, the row's value, the attribution. */
  datatype Entry = Entry(traducao: string, valor: Cell, impacto: int)

  /** What `classificar` can fail with once the row is built. */
  datatype ClassifyError =
    | ClassNotFound(predicao: string)
    | FeatureIndexOutOfRange(index: nat)
    | MissingColumn(feature: string)

  /** The entry for attribution index `idx`, or the error its lookups raise. */
  function ExplainOne(featureNames: seq<string>, dados: Row, valores: seq<int>, idx: nat): Result<Entry, ClassifyError>
    requires idx < |valores|
  {
    if idx >= |featureNames| then Failure(FeatureIndexOutOfRange(idx))
    else
      match Lookup(dados, featureNames[idx])
      case None => Failure(MissingColumn(featureNames[idx]))
      case Some(valor) => Success(Entry(DisplayName(featureNames[idx]), valor, valores[idx]))
  }

  /** When the row is laid out as the feature names, entry `idx` shows that feature's own cell. */
  lemma ExplainOneAligned(featureNames: seq<string>, dados: Row, valores: seq<int>, idx: nat)
    requires Names(dados) == featureNames && Distinct(featureNames)
    requires idx < |featureNames| && idx < |valores|
    ensures ExplainOne(featureNames, dados, valores, idx)
      == Success(Entry(DisplayName(featureNames[idx]), dados[idx].1, valores[idx]))
  {
    assert Names(dados)[idx] == featureNames[idx];
    var r := Lookup(dados, featureNames[idx]);
    var j :| 0 <= j < |dados| && dados[j] == (featureNames[idx], r.value);
    assert Names(dados)[j] == featureNames[idx];
  }

  /** The loop over `top_features` that appends one entry per index to `explicacoes`. */
  method Explain(featureNames: seq<string>, dados: Row, valores: seq<int>, top: seq<nat>)
    returns (res: Result<seq<Entry>, ClassifyError>)
    requires forall i :: 0 <= i < |top| ==> top[i] < |valores|
    ensures res.Success? ==> |res.value| == |top|
    ensures res.Success? ==> forall i :: 0 <= i < |top| ==> ExplainOne(featureNames, dados, valores, top[i]) == Success(res.value[i])
    ensures res.Failure? ==>
      exists i ::
        && 0 <= i < |top|
        && (forall j :: 0 <= j < i ==> ExplainOne(featureNames, dados, valores, top[j]).Success?)
        && ExplainOne(featureNames, dados, valores, top[i]) == Failure(res.error)
  {
    var explicacoes: seq<Entry> := [];
    var n := 0;
    while n < |top|
      invariant 0 <= n <= |top| && |explicacoes| == n
      invariant forall i :: 0 <= i < n ==> ExplainOne(featureNames, dados, valores, top[i]) == Success(explicacoes[i])
    {
      var idx := top[n];
      if idx >= |featureNames| {
        return Failure(FeatureIndexOutOfRange(idx));
      }
      var feature := featureNames[idx];
      var valor := Lookup(dados, feature);
      if valor.None? {
        return Failure(MissingColumn(feature));
      }
      var impacto := valores[idx];
      var traducao := DisplayName(feature);
      explicacoes := explicacoes + [Entry(traducao, valor.value, impacto)];
      n := n + 1;
    }
    return Success(explicacoes);
  }

  // ---------------------------------------------------------------------------
  // classificar

  /** What a successful classification reports. */
  datatype Classification = Classification(
    decisao: string,
    classIndex: nat,
    topFeatures: seq<nat>,
    explicacoes: seq<Entry>)

  /**
   * `classificar` from the encoded row on: predict, find the class's position, take its
   * attributions, pick the top three and build their entries. `predict` stands for
   * `model.predict` and `attributionsFor(row, c)` for SHAP's attributions of class `c`.
   */
  method Classificar(
    c: Candidate, classes: seq<string>, columns: seq<string>, modelClasses: seq<string>,
    predict: Row -> string, attributionsFor: (Row, nat) -> seq<int>)
    returns (res: Result<Classification, ClassifyError>)
    requires ValidVocabulary(classes)
    ensures var dados := ProcessarEntrada(c, classes, columns);
      predict(dados) !in modelClasses ==> res == Failure(ClassNotFound(predict(dados)))
    ensures var dados := ProcessarEntrada(c, classes, columns);
      res.Success? ==>
        && res.value.decisao == predict(dados)
        && IndexOf(modelClasses, res.value.decisao) == Some(res.value.classIndex)
        && IsTopK(attributionsFor(dados, res.value.classIndex), 3, res.value.topFeatures)
        && |res.value.explicacoes| == |res.value.topFeatures|
        && forall i :: 0 <= i < |res.value.topFeatures| ==>
             res.value.topFeatures[i] < |attributionsFor(dados, res.value.classIndex)|
             && ExplainOne(columns, dados, attributionsFor(dados, res.value.classIndex), res.value.topFeatures[i])
                == Success(res.value.explicacoes[i])
    ensures var dados := ProcessarEntrada(c, classes, columns);
      var idx := IndexOf(modelClasses, predict(dados));
      idx.Some? && |attributionsFor(dados, idx.value)| <= |columns| ==> res.Success?
  {
    var dados := ProcessarEntrada(c, classes, columns);
    var predicao := predict(dados);
    var idxClasse := IndexOf(modelClasses, predicao);
    if idxClasse.None? {
      return Failure(ClassNotFound(predicao));
    }
    var valores := attributionsFor(dados, idxClasse.value);
    var top := TopFeatures(valores, 3);
    if |valores| <= |columns| {
      forall i | 0 <= i < |top| ensures ExplainOne(columns, dados, valores, top[i]).Success? {
        assert Names(dados)[top[i]] == columns[top[i]];
      }
    }
    var explicacoes := Explain(columns, dados, valores, top);
    if explicacoes.Failure? {
      return Failure(explicacoes.error);
    }
    res := Success(Classification(predicao, idxClasse.value, top, explicacoes.value));
  }
}
