/**
 * The normalisation stage of the startup script (app.py:19-41): from the
 * decoded payload to `novo_df`, the table of leaf disease observations
 * sorted by disease type and cut down to six columns.
 */
module Normalization {
  import opened Wrappers
  import opened Cells
  import opened Frame

  const TipoDeDoenca := "Tipo de doença"
  const NivelTerritorial := "Nível Territorial"
  const Valor := "Valor"
  const Ano := "Ano"
  const Regiao := "Brasil, Grande Região e UF"
  const CodigoDoenca := "Tipo de doença (Código)"

  /** The six columns novo_df keeps, in their order. */
  const Columns: seq<string> := [TipoDeDoenca, NivelTerritorial, Valor, Ano, Regiao, CodigoDoenca]

  /** The respiratory-disease label and the short form it is rewritten to. */
  const Respiratory := "Doença do aparelho respiratório"
  const RespiratoryShort := "DAR*"

  /** The two aggregate rows that are not leaf observations. */
  const Totals: set<Cell> := {Str("Total"), Str("Total geral de municípios")}

  /** One row of novo_df; its fields are the six columns, in order. */
  datatype DiseaseRow = DiseaseRow(disease: Cell, level: Cell, value: Cell, year: Cell, region: Cell, code: Cell)

  /** Where the six columns sit in the promoted frame. */
  datatype Layout = Layout(disease: nat, level: nat, value: nat, year: nat, region: nat, code: nat)

  /** Cell c of row sits under a column labelled name. */
  predicate Labelled(columns: seq<Cell>, row: Row, name: string, c: Cell) {
    exists j :: 0 <= j < |columns| && columns[j] == Str(name) && At(row, j) == c
  }

  /** Each field of rec is the row's cell under the column of that name. */
  predicate Projects(columns: seq<Cell>, row: Row, rec: DiseaseRow) {
    && Labelled(columns, row, TipoDeDoenca, rec.disease)
    && Labelled(columns, row, NivelTerritorial, rec.level)
    && Labelled(columns, row, Valor, rec.value)
    && Labelled(columns, row, Ano, rec.year)
    && Labelled(columns, row, Regiao, rec.region)
    && Labelled(columns, row, CodigoDoenca, rec.code)
  }

  /** Rows in ascending order of disease type, the order `sort_values` gives novo_df. */
  predicate ByDisease(rows: seq<DiseaseRow>) {
    forall i, j :: 0 <= i < j < |rows| ==> KeyLe(rows[i].disease, rows[j].disease)
  }

  predicate AllUnique(columns: seq<Cell>) {
    forall n :: n in Columns ==> ColumnIndex(columns, n).Ok?
  }

  /** Each field of l is the position of a column labelled with that field's name. */
  predicate Places(columns: seq<Cell>, l: Layout) {
    && l.disease < |columns| && columns[l.disease] == Str(TipoDeDoenca)
    && l.level < |columns| && columns[l.level] == Str(NivelTerritorial)
    && l.value < |columns| && columns[l.value] == Str(Valor)
    && l.year < |columns| && columns[l.year] == Str(Ano)
    && l.region < |columns| && columns[l.region] == Str(Regiao)
    && l.code < |columns| && columns[l.code] == Str(CodigoDoenca)
  }

  /** The positions of the six columns, or the error for the first one missing or repeated. */
  function Locate(columns: seq<Cell>): (r: Result<Layout, Error>)
    ensures r.Ok? <==> AllUnique(columns)
    ensures r.Ok? ==> r.value.disease == ColumnIndex(columns, TipoDeDoenca).value
    ensures r.Ok? ==> Places(columns, r.value)
    ensures r.Err? ==> exists n :: n in Columns && ColumnIndex(columns, n) == Err(r.error)
  {
    var disease :- ColumnIndex(columns, TipoDeDoenca);
    var level :- ColumnIndex(columns, NivelTerritorial);
    var value :- ColumnIndex(columns, Valor);
    var year :- ColumnIndex(columns, Ano);
    var region :- ColumnIndex(columns, Regiao);
    var code :- ColumnIndex(columns, CodigoDoenca);
    Ok(Layout(disease, level, value, year, region, code))
  }

  function ToRecord(row: Row, l: Layout): DiseaseRow {
    DiseaseRow(At(row, l.disease), At(row, l.level), At(row, l.value), At(row, l.year), At(row, l.region), At(row, l.code))
  }

  function ToRecords(rows: seq<Row>, l: Layout): seq<DiseaseRow> {
    seq(|rows|, i requires 0 <= i < |rows| => ToRecord(rows[i], l))
  }

  /**
   * `novo_df[[six columns]]`: one record per row, in order, each field the
   * row's cell under the column of that name; a KeyError when a column is absent.
   */
  function Project(t: Table): (r: Result<seq<DiseaseRow>, Error>)
    ensures r.Ok? <==> AllUnique(t.columns)
    ensures r.Ok? ==> |r.value| == |t.rows|
    ensures r.Ok? ==> forall i :: 0 <= i < |t.rows| ==> Projects(t.columns, t.rows[i], r.value[i])
    ensures r.Err? ==> exists n :: n in Columns && ColumnIndex(t.columns, n) == Err(r.error)
  {
    var l :- Locate(t.columns);
    LocateProjects(t.columns, l, t.rows);
    Ok(ToRecords(t.rows, l))
  }

  /** Each record built from a located layout projects its row. */
  lemma LocateProjects(columns: seq<Cell>, l: Layout, rows: seq<Row>)
    requires Places(columns, l)
    ensures forall i :: 0 <= i < |rows| ==> Projects(columns, rows[i], ToRecord(rows[i], l))
  {
    forall i | 0 <= i < |rows|
      ensures Projects(columns, rows[i], ToRecord(rows[i], l))
    {
      var rec := ToRecord(rows[i], l);
      assert Labelled(columns, rows[i], TipoDeDoenca, rec.disease) by { assert columns[l.disease] == Str(TipoDeDoenca); }
      assert Labelled(columns, rows[i], NivelTerritorial, rec.level) by { assert columns[l.level] == Str(NivelTerritorial); }
      assert Labelled(columns, rows[i], Valor, rec.value) by { assert columns[l.value] == Str(Valor); }
      assert Labelled(columns, rows[i], Ano, rec.year) by { assert columns[l.year] == Str(Ano); }
      assert Labelled(columns, rows[i], Regiao, rec.region) by { assert columns[l.region] == Str(Regiao); }
      assert Labelled(columns, rows[i], CodigoDoenca, rec.code) by { assert columns[l.code] == Str(CodigoDoenca); }
    }
  }

  /** Relabel and sentinel filter: the rows that go on to be sorted. */
  function Cleaned(rows: seq<Row>, k: nat): seq<Row> {
    DropWhereIn(Replace(rows, k, Str(Respiratory), Str(RespiratoryShort)), k, Totals)
  }

  /**
   * The whole normalisation: header, relabel, filter, sort, projection. It
   * succeeds exactly when the payload is non-empty and its header has each
   * of the six columns once; otherwise the error is EmptyPayload or that of
   * a column that is missing or repeated.
   */
  function Normalize(raw: Payload): (r: Result<seq<DiseaseRow>, Error>)
    ensures r.Ok? <==> raw != [] && AllUnique(PromoteHeader(raw).value.columns)
    ensures raw == [] ==> r == Err(EmptyPayload)
    ensures raw != [] && r.Err? ==>
              exists n :: n in Columns && ColumnIndex(PromoteHeader(raw).value.columns, n) == Err(r.error)
  {
    var df :- PromoteHeader(raw);
    var k :- ColumnIndex(df.columns, TipoDeDoenca);
    Project(Table(df.columns, SortRows(Cleaned(df.rows, k), k)))
  }

  /** A header that lacks or repeats any one of the six columns makes normalisation fail. */
  lemma ColumnErrorFails(raw: Payload, name: string)
    requires raw != [] && name in Columns
    requires ColumnIndex(PromoteHeader(raw).value.columns, name).Err?
    ensures Normalize(raw).Err?
  {
  }

  lemma ToRecordsConcat(a: seq<Row>, b: seq<Row>, l: Layout)
    ensures ToRecords(a + b, l) == ToRecords(a, l) + ToRecords(b, l)
  {
  }

  /** Projecting two permutations of the same rows gives permutations of the same records. */
  lemma {:induction false} ToRecordsPermutation(s: seq<Row>, t: seq<Row>, l: Layout)
    requires multiset(s) == multiset(t)
    ensures multiset(ToRecords(s, l)) == multiset(ToRecords(t, l))
    decreases |s|
  {
    if s == [] {
      assert |multiset(t)| == 0;
    } else {
      var x := s[0];
      assert x in multiset(t);
      var i :| 0 <= i < |t| && t[i] == x;
      var rest := t[..i] + t[i + 1..];
      assert t == t[..i] + [x] + t[i + 1..];
      assert s == [x] + s[1..];
      assert multiset(t) == multiset(t[..i]) + multiset{x} + multiset(t[i + 1..]);
      assert multiset(rest) == multiset(t[..i]) + multiset(t[i + 1..]);
      assert multiset(s) == multiset{x} + multiset(s[1..]);
      assert multiset(s[1..]) == multiset(s) - multiset{x};
      assert multiset(rest) == multiset(t) - multiset{x};
      ToRecordsPermutation(s[1..], rest, l);
      ToRecordsConcat([x], s[1..], l);
      ToRecordsConcat(t[..i] + [x], t[i + 1..], l);
      ToRecordsConcat(t[..i], [x], l);
      ToRecordsConcat(t[..i], t[i + 1..], l);
    }
  }

  /** A successful normalisation is the projection of the sorted, cleaned rows, keyed on the disease column. */
  lemma NormalizeUnfold(raw: Payload)
    requires Normalize(raw).Ok?
    ensures var df := PromoteHeader(raw).value;
            var k := ColumnIndex(df.columns, TipoDeDoenca).value;
            && Locate(df.columns).Ok? && Locate(df.columns).value.disease == k
            && Normalize(raw).value == ToRecords(SortRows(Cleaned(df.rows, k), k), Locate(df.columns).value)
  {
  }

  /** No cleaned row carries an aggregate label or the long respiratory label in the key column. */
  lemma CleanedRows(rows: seq<Row>, k: nat)
    ensures forall row :: row in Cleaned(rows, k) ==> At(row, k) !in Totals && At(row, k) != Str(Respiratory)
  {
    var relabelled := Replace(rows, k, Str(Respiratory), Str(RespiratoryShort));
    forall row | row in Cleaned(rows, k)
      ensures At(row, k) !in Totals && At(row, k) != Str(Respiratory)
    {
      assert row in relabelled;
      var m :| 0 <= m < |relabelled| && relabelled[m] == row;
    }
  }

  /**
   * What novo_df is: no aggregate row and no long respiratory label is
   * left; it is in ascending order of disease type; and its records are a
   * permutation of the projections of the relabelled, filtered data rows.
   */
  lemma NormalizeSpec(raw: Payload)
    requires Normalize(raw).Ok?
    ensures var novo := Normalize(raw).value;
            forall i :: 0 <= i < |novo| ==> novo[i].disease !in Totals && novo[i].disease != Str(Respiratory)
    ensures ByDisease(Normalize(raw).value)
    ensures var df := PromoteHeader(raw).value;
            var k := ColumnIndex(df.columns, TipoDeDoenca).value;
            && Locate(df.columns).Ok?
            && multiset(Normalize(raw).value) == multiset(ToRecords(Cleaned(df.rows, k), Locate(df.columns).value))
  {
    NormalizeUnfold(raw);
    var novo := Normalize(raw).value;
    var df := PromoteHeader(raw).value;
    var k := ColumnIndex(df.columns, TipoDeDoenca).value;
    var kept := Cleaned(df.rows, k);
    var sorted := SortRows(kept, k);
    var l := Locate(df.columns).value;
    CleanedRows(df.rows, k);
    forall i | 0 <= i < |novo|
      ensures novo[i].disease !in Totals && novo[i].disease != Str(Respiratory)
    {
      assert sorted[i] in multiset(kept);
    }
    ToRecordsPermutation(sorted, kept, l);
  }

  /**
   * A payload whose header row holds only the four columns "Tipo de
   * doença", "Valor", "Ano" and "Brasil, Grande Região e UF" fails at the
   * projection, whatever its data rows: the script also names
   * "Nível Territorial", which such a header lacks.
   */
  lemma FourColumnPayloadFails(raw: Payload)
    requires raw != [] && raw[0] == [TipoDeDoenca, Valor, Ano, Regiao]
    ensures Normalize(raw).Err?
  {
    var columns := PromoteHeader(raw).value.columns;
    assert Str(NivelTerritorial) !in columns by {
      forall j | 0 <= j < |columns|
        ensures columns[j] != Str(NivelTerritorial)
      {
        if j < 4 {
          assert raw[0][j] != NivelTerritorial;
        }
      }
    }
    ColumnErrorFails(raw, NivelTerritorial);
  }
}
