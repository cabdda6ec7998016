/**
 * The module-level startup script of app.py (lines 19-76) as one method,
 * proved equal to the composition of the normalisation and join stages.
 */
module Startup {
  import opened Wrappers
  import opened Cells
  import opened Frame
  import opened Normalization
  import opened GeoJoin

  /** The three tables the dashboard's callbacks read: novo_df, df_estados, df_final. */
  datatype Tables = Tables(novo: seq<DiseaseRow>, estados: seq<Feature>, final: seq<FinalRow>)

  /**
   * The startup computation as a function of the payload and the
   * document's features: an empty payload is refused, and a successful
   * start holds a non-empty df_estados of the candidate features.
   */
  function Pipeline(raw: Payload, features: seq<Feature>): (r: Result<Tables, Error>)
    ensures raw == [] ==> r == Err(EmptyPayload)
    ensures r.Ok? ==> r.value.estados == SelectFeatures(features, Candidates(r.value.novo)) && r.value.estados != []
  {
    var novo :- Normalize(raw);
    var out :- Join(novo, features);
    Ok(Tables(novo, out.estados, out.final))
  }

  /** The script itself, one statement per step, each reassigning the frame it works on. */
  method Run(raw: Payload, features: seq<Feature>) returns (r: Result<Tables, Error>)
    ensures r == Pipeline(raw, features)
  {
    var df :- PromoteHeader(raw);
    var k :- ColumnIndex(df.columns, TipoDeDoenca);
    var rows := Replace(df.rows, k, Str(Respiratory), Str(RespiratoryShort));
    rows := DropWhereIn(rows, k, Totals);
    rows := SortRows(rows, k);
    var novo :- Project(Table(df.columns, rows));
    var candidates := Candidates(novo);
    var estados := BuildFeatureTable(features, candidates);
    if estados == [] {
      return Err(EmptyFeatureTable);
    }
    var merged := LeftMerge(novo, estados);
    merged := DropUnmatched(merged);
    var joined := Reshape(merged);
    var final :- CoerceValues(joined);
    r := Ok(Tables(novo, estados, final));
  }

  /**
   * The startup tables keep the promises of both stages: novo_df holds no
   * aggregate row and is sorted by disease type; no df_final row names the
   * country or a macro-region, each comes from a feature and a novo_df row
   * of that state, and row i is the i-th inner-join pair, renamed and
   * with its value coerced.
   */
  lemma PipelineSpec(raw: Payload, features: seq<Feature>)
    requires Pipeline(raw, features).Ok?
    ensures var t := Pipeline(raw, features).value;
            forall i :: 0 <= i < |t.novo| ==> t.novo[i].disease !in Totals
    ensures ByDisease(Pipeline(raw, features).value.novo)
    ensures var t := Pipeline(raw, features).value;
            forall i :: 0 <= i < |t.final| ==> t.final[i].estados !in MacroRegions
    ensures var t := Pipeline(raw, features).value;
            forall i :: 0 <= i < |t.final| ==> FromFeatureAndRow(t.final[i], t.novo, features)
    ensures var t := Pipeline(raw, features).value;
            |t.final| == |InnerMerge(t.novo, t.estados)|
    ensures var t := Pipeline(raw, features).value;
            var inner := InnerMerge(t.novo, t.estados);
            forall i :: 0 <= i < |inner| ==>
              && inner[i].right.Some? && Coerce(inner[i].left.value).Ok?
              && t.final[i] == FinalRow(inner[i].left.disease, Coerce(inner[i].left.value).value, inner[i].left.year,
                                        inner[i].right.value.id, inner[i].right.value.name)
    ensures var t := Pipeline(raw, features).value;
            UniqueNames(t.estados) ==> |t.final| == |MatchedRows(t.novo, t.estados)|
  {
    var t := Pipeline(raw, features).value;
    NormalizeSpec(raw);
    JoinSpec(t.novo, features);
    if UniqueNames(t.estados) {
      InnerMergeSize(t.novo, t.estados);
    }
  }
}
