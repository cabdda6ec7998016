/**
 * The geographic join of the startup script (app.py:44-76): the candidate
 * state names, the (ID, Nome) table built from the boundary document's
 * features, the left merge with novo_df, `dropna`, the renaming and
 * dropping of columns, and the coercion of "Valor" to integers.
 */
module GeoJoin {
  import opened Wrappers
  import opened Cells
  import opened Normalization

  /**
   * A Feature of the boundary document's FeatureCollection (RFC 7946,
   * sections 3.2 and 3.3): its `id` member and its `properties.name`.
   * The same pair is a row (ID, Nome) of df_estados.
   */
  datatype Feature = Feature(id: string, name: string)

  /** The country and the five macro-regions, which are not states. */
  const MacroRegions: set<string> := {"Brasil", "Norte", "Nordeste", "Sudeste", "Sul", "Centro-Oeste"}

  /** `estados_unique`: the region names of novo_df other than the country and macro-regions. */
  function Candidates(novo: seq<DiseaseRow>): (c: set<string>)
    ensures forall s :: s in c <==> s !in MacroRegions && exists row :: row in novo && row.region == Str(s)
  {
    set row | row in novo && row.region.Str? && row.region.text !in MacroRegions :: row.region.text
  }

  /** The features whose name is a candidate, in document order. */
  function SelectFeatures(features: seq<Feature>, candidates: set<string>): (r: seq<Feature>)
    ensures forall f :: f in r <==> f in features && f.name in candidates
    ensures |r| <= |features|
  {
    if features == [] then []
    else
      var rest := SelectFeatures(features[1..], candidates);
      if features[0].name in candidates then [features[0]] + rest else rest
  }

  /** Selecting from two stretches of the document is selecting from each, in order. */
  lemma {:induction false} SelectFeaturesAppend(a: seq<Feature>, b: seq<Feature>, candidates: set<string>)
    ensures SelectFeatures(a + b, candidates) == SelectFeatures(a, candidates) + SelectFeatures(b, candidates)
  {
    if a == [] {
      assert a + b == b;
    } else {
      assert (a + b)[1..] == a[1..] + b;
      SelectFeaturesAppend(a[1..], b, candidates);
    }
  }

  /** The loop over `geojson["features"]` that appends {"ID": id, "Nome": name} to df_estados. */
  method BuildFeatureTable(features: seq<Feature>, candidates: set<string>) returns (table: seq<Feature>)
    ensures table == SelectFeatures(features, candidates)
  {
    table := [];
    for i := 0 to |features|
      invariant table == SelectFeatures(features[..i], candidates)
    {
      var feature := features[i];
      assert features[..i + 1] == features[..i] + [feature];
      SelectFeaturesSnoc(features[..i], feature, candidates);
      if feature.name in candidates {
        table := table + [Feature(feature.id, feature.name)];
      }
    }
    assert features[..|features|] == features;
  }

  /** One more feature read from the document adds it to the table exactly when its name is a candidate. */
  lemma SelectFeaturesSnoc(prefix: seq<Feature>, feature: Feature, candidates: set<string>)
    ensures SelectFeatures(prefix + [feature], candidates) ==
            SelectFeatures(prefix, candidates) + if feature.name in candidates then [feature] else []
  {
    SelectFeaturesAppend(prefix, [feature], candidates);
    assert [feature][1..] == [];
  }

  /** The df_estados rows whose Nome equals the row's region, in table order. */
  function Matches(row: DiseaseRow, table: seq<Feature>): (m: seq<Feature>)
    ensures forall f :: f in m <==> f in table && row.region == Str(f.name)
    ensures forall f :: multiset(m)[f] == if row.region == Str(f.name) then multiset(table)[f] else 0
  {
    if table == [] then []
    else
      assert table == [table[0]] + table[1..];
      var rest := Matches(row, table[1..]);
      if row.region == Str(table[0].name) then [table[0]] + rest else rest
  }

  /** A row of the merged frame; `right` is None where the merge found no match (NaN ID and Nome). */
  datatype Merged = Merged(left: DiseaseRow, right: Option<Feature>)

  function Paired(row: DiseaseRow, m: seq<Feature>): (r: seq<Merged>)
    ensures forall x :: x in r <==> x.left == row && x.right.Some? && x.right.value in m
  {
    var r := seq(|m|, j requires 0 <= j < |m| => Merged(row, Some(m[j])));
    assert forall f :: f in m ==> Merged(row, Some(f)) in r by {
      forall f | f in m
        ensures Merged(row, Some(f)) in r
      {
        var j :| 0 <= j < |m| && m[j] == f;
        assert r[j] == Merged(row, Some(f));
      }
    }
    r
  }

  /** The rows one left row contributes to a left merge. */
  function MergeRow(row: DiseaseRow, table: seq<Feature>): (r: seq<Merged>)
    ensures forall x :: x in r <==> x.left == row && Joins(x, table)
    ensures r != []
  {
    var m := Matches(row, table);
    if m == [] then [Merged(row, None)] else Paired(row, m)
  }

  /**
   * A merged row is admissible for a left join with table: a feature the
   * row matches, or no feature at all when the row matches none.
   */
  predicate Joins(x: Merged, table: seq<Feature>) {
    if x.right.Some? then x.right.value in table && x.left.region == Str(x.right.value.name)
    else Matches(x.left, table) == []
  }

  /**
   * `pd.merge(novo_df, df_estados, left_on=region, right_on="Nome", how="left")`:
   * every row of novo_df is kept, with each feature it matches or with none.
   */
  function LeftMerge(novo: seq<DiseaseRow>, table: seq<Feature>): (r: seq<Merged>)
    ensures forall x :: x in r <==> x.left in novo && Joins(x, table)
    ensures |r| >= |novo|
  {
    if novo == [] then []
    else
      assert novo == [novo[0]] + novo[1..];
      MergeRow(novo[0], table) + LeftMerge(novo[1..], table)
  }

  /** `dropna(subset=["Nome"])`: the rows the merge matched, in order. */
  function DropUnmatched(rows: seq<Merged>): (r: seq<Merged>)
    ensures forall x :: x in r <==> x in rows && x.right.Some?
  {
    if rows == [] then []
    else
      var rest := DropUnmatched(rows[1..]);
      if rows[0].right.Some? then [rows[0]] + rest else rest
  }

  /** The reference definition of an inner join: each row paired with each of its matches. */
  function InnerMerge(novo: seq<DiseaseRow>, table: seq<Feature>): seq<Merged> {
    if novo == [] then [] else Paired(novo[0], Matches(novo[0], table)) + InnerMerge(novo[1..], table)
  }

  lemma {:induction false} DropUnmatchedAppend(a: seq<Merged>, b: seq<Merged>)
    ensures DropUnmatched(a + b) == DropUnmatched(a) + DropUnmatched(b)
  {
    if a == [] {
      assert a + b == b;
    } else {
      assert (a + b)[1..] == a[1..] + b;
      DropUnmatchedAppend(a[1..], b);
    }
  }

  lemma {:induction false} DropUnmatchedPaired(row: DiseaseRow, m: seq<Feature>)
    ensures DropUnmatched(Paired(row, m)) == Paired(row, m)
  {
    if m != [] {
      assert Paired(row, m) == [Merged(row, Some(m[0]))] + Paired(row, m[1..]);
      DropUnmatchedAppend([Merged(row, Some(m[0]))], Paired(row, m[1..]));
      DropUnmatchedPaired(row, m[1..]);
    }
  }

  /** A left merge followed by dropna on the right-hand column is an inner join. */
  lemma {:induction false} LeftMergeThenDropIsInner(novo: seq<DiseaseRow>, table: seq<Feature>)
    ensures DropUnmatched(LeftMerge(novo, table)) == InnerMerge(novo, table)
  {
    if novo != [] {
      DropUnmatchedAppend(MergeRow(novo[0], table), LeftMerge(novo[1..], table));
      DropUnmatchedPaired(novo[0], Matches(novo[0], table));
      LeftMergeThenDropIsInner(novo[1..], table);
    }
  }

  lemma {:induction false} PairedCount(row: DiseaseRow, m: seq<Feature>, x: Merged)
    ensures multiset(Paired(row, m))[x] == if x.left == row && x.right.Some? then multiset(m)[x.right.value] else 0
  {
    if m != [] {
      assert Paired(row, m) == [Merged(row, Some(m[0]))] + Paired(row, m[1..]);
      assert m == [m[0]] + m[1..];
      PairedCount(row, m[1..], x);
    }
  }

  /**
   * Join multiplicity: a pair (row, feature) whose names agree occurs in the
   * inner join as often as the row occurs in novo_df times as often as the
   * feature occurs in df_estados; no other pair occurs at all.
   */
  lemma InnerMergeCount(novo: seq<DiseaseRow>, table: seq<Feature>, row: DiseaseRow, f: Feature)
    ensures multiset(InnerMerge(novo, table))[Merged(row, Some(f))] ==
            if row.region == Str(f.name) then multiset(novo)[row] * multiset(table)[f] else 0
    ensures multiset(InnerMerge(novo, table))[Merged(row, None)] == 0
  {
    InnerMergeNoneCount(novo, table, row);
    if row.region == Str(f.name) {
      InnerMergePairCount(novo, table, row, f);
    } else {
      InnerMergeMismatchCount(novo, table, row, f);
    }
  }

  /** The inner join never holds a row without a feature. */
  lemma {:induction false} InnerMergeNoneCount(novo: seq<DiseaseRow>, table: seq<Feature>, row: DiseaseRow)
    ensures multiset(InnerMerge(novo, table))[Merged(row, None)] == 0
  {
    if novo != [] {
      var y := Merged(row, None);
      var head := Paired(novo[0], Matches(novo[0], table));
      assert InnerMerge(novo, table) == head + InnerMerge(novo[1..], table);
      InnerMergeNoneCount(novo[1..], table, row);
      PairedCount(novo[0], Matches(novo[0], table), y);
    }
  }

  /** A pair whose names disagree never occurs in the inner join. */
  lemma {:induction false} InnerMergeMismatchCount(novo: seq<DiseaseRow>, table: seq<Feature>, row: DiseaseRow, f: Feature)
    requires row.region != Str(f.name)
    ensures multiset(InnerMerge(novo, table))[Merged(row, Some(f))] == 0
  {
    if novo != [] {
      var x := Merged(row, Some(f));
      var head := Paired(novo[0], Matches(novo[0], table));
      assert InnerMerge(novo, table) == head + InnerMerge(novo[1..], table);
      InnerMergeMismatchCount(novo[1..], table, row, f);
      PairedCount(novo[0], Matches(novo[0], table), x);
    }
  }

  /** A pair whose names agree occurs as often as the row times as often as the feature. */
  lemma {:induction false} InnerMergePairCount(novo: seq<DiseaseRow>, table: seq<Feature>, row: DiseaseRow, f: Feature)
    requires row.region == Str(f.name)
    ensures multiset(InnerMerge(novo, table))[Merged(row, Some(f))] == multiset(novo)[row] * multiset(table)[f]
  {
    if novo != [] {
      var x := Merged(row, Some(f));
      var t := multiset(table)[f];
      InnerMergePairCount(novo[1..], table, row, f);
      InnerMergeConsCount(novo, table, x);
      HeadPairCount(novo[0], table, row, f);
      SeqConsCount(novo, row);
      CountStep(multiset(Paired(novo[0], Matches(novo[0], table)))[x], multiset(InnerMerge(novo[1..], table))[x],
                if novo[0] == row then 1 else 0, multiset(novo[1..])[row], t);
    }
  }

  lemma InnerMergeConsCount(novo: seq<DiseaseRow>, table: seq<Feature>, x: Merged)
    requires novo != []
    ensures multiset(InnerMerge(novo, table))[x] ==
            multiset(Paired(novo[0], Matches(novo[0], table)))[x] + multiset(InnerMerge(novo[1..], table))[x]
  {
    assert InnerMerge(novo, table) == Paired(novo[0], Matches(novo[0], table)) + InnerMerge(novo[1..], table);
  }

  lemma HeadPairCount(left: DiseaseRow, table: seq<Feature>, row: DiseaseRow, f: Feature)
    requires row.region == Str(f.name)
    ensures multiset(Paired(left, Matches(left, table)))[Merged(row, Some(f))] == if left == row then multiset(table)[f] else 0
  {
    PairedCount(left, Matches(left, table), Merged(row, Some(f)));
  }

  lemma SeqConsCount<T>(s: seq<T>, x: T)
    requires s != []
    ensures multiset(s)[x] == (if s[0] == x then 1 else 0) + multiset(s[1..])[x]
  {
    assert s == [s[0]] + s[1..];
  }

  /** One step of the multiplicity count: the head contributes t when it is the row, nothing otherwise. */
  lemma CountStep(h: int, rest: int, here: int, others: int, t: int)
    requires here == 0 || here == 1
    requires h == here * t && rest == others * t
    ensures h + rest == (here + others) * t
  {
  }

  /** The rows of novo_df whose region names some row of df_estados. */
  function MatchedRows(novo: seq<DiseaseRow>, table: seq<Feature>): (r: seq<DiseaseRow>)
    ensures forall row :: multiset(r)[row] == if Matches(row, table) != [] then multiset(novo)[row] else 0
    ensures forall row :: row in r <==> row in novo && exists f :: f in table && row.region == Str(f.name)
  {
    if novo == [] then []
    else
      var rest := MatchedRows(novo[1..], table);
      var r := if Matches(novo[0], table) != [] then [novo[0]] + rest else rest;
      assert novo == [novo[0]] + novo[1..];
      assert forall row :: multiset(r)[row] == if Matches(row, table) != [] then multiset(novo)[row] else 0;
      MatchedMembers(novo, table, r);
      r
  }

  /** Rows kept as often as they occur when matched, and never otherwise, are exactly the matched rows. */
  lemma MatchedMembers(novo: seq<DiseaseRow>, table: seq<Feature>, r: seq<DiseaseRow>)
    requires forall row :: multiset(r)[row] == if Matches(row, table) != [] then multiset(novo)[row] else 0
    ensures forall row :: row in r <==> row in novo && exists f :: f in table && row.region == Str(f.name)
  {
    forall row
      ensures row in r <==> row in novo && exists f :: f in table && row.region == Str(f.name)
    {
      assert row in r <==> multiset(r)[row] > 0;
      assert row in novo <==> multiset(novo)[row] > 0;
      if Matches(row, table) != [] {
        assert Matches(row, table)[0] in table;
      }
    }
  }

  predicate UniqueNames(table: seq<Feature>) {
    forall i, j :: 0 <= i < j < |table| ==> table[i].name != table[j].name
  }

  lemma {:induction false} AtMostOneMatch(row: DiseaseRow, table: seq<Feature>)
    requires UniqueNames(table)
    ensures |Matches(row, table)| <= 1
  {
    if table != [] {
      AtMostOneMatch(row, table[1..]);
    }
  }

  /**
   * When no two features share a name, the inner join has exactly one row
   * for each row of novo_df that has a match.
   */
  lemma {:induction false} InnerMergeSize(novo: seq<DiseaseRow>, table: seq<Feature>)
    requires UniqueNames(table)
    ensures |InnerMerge(novo, table)| == |MatchedRows(novo, table)|
  {
    if novo != [] {
      AtMostOneMatch(novo[0], table);
      InnerMergeSize(novo[1..], table);
    }
  }

  /** A row of df_final before coercion: the renamed, reduced merge row. */
  datatype JoinedRow = JoinedRow(disease: Cell, value: Cell, year: Cell, uf: string, estados: string)

  /** A row of df_final: "Tipo de doença", "Valor", "Ano", "UF", "Estados". */
  datatype FinalRow = FinalRow(disease: Cell, value: int, year: Cell, uf: string, estados: string)

  /** `rename(Nome -> Estados, ID -> UF)` and `drop` of the level, code and region columns. */
  function Reshape(rows: seq<Merged>): (r: seq<JoinedRow>)
    requires forall x :: x in rows ==> x.right.Some?
    ensures |r| == |rows|
    ensures forall i :: 0 <= i < |rows| ==>
              && Feature(r[i].uf, r[i].estados) == rows[i].right.value
              && r[i].disease == rows[i].left.disease && r[i].value == rows[i].left.value
              && r[i].year == rows[i].left.year
  {
    seq(|rows|, i requires 0 <= i < |rows| =>
      var x := rows[i];
      JoinedRow(x.left.disease, x.left.value, x.left.year, x.right.value.id, x.right.value.name))
  }

  /**
   * `df_final["Valor"].replace("-", 0).astype(int)`: every value coerced,
   * or the error of the first row whose value cannot be.
   */
  function CoerceValues(rows: seq<JoinedRow>): (r: Result<seq<FinalRow>, Error>)
    ensures r.Ok? <==> forall i :: 0 <= i < |rows| ==> Coerce(rows[i].value).Ok?
    ensures r.Ok? ==> |r.value| == |rows|
    ensures r.Ok? ==> forall i :: 0 <= i < |rows| ==>
              r.value[i] == FinalRow(rows[i].disease, Coerce(rows[i].value).value, rows[i].year, rows[i].uf, rows[i].estados)
    ensures r.Err? ==> exists i :: 0 <= i < |rows| && Coerce(rows[i].value) == Err(r.error)
  {
    if rows == [] then Ok([])
    else
      var x := rows[0];
      var v :- Coerce(x.value);
      var rest :- CoerceValues(rows[1..]);
      Ok([FinalRow(x.disease, v, x.year, x.uf, x.estados)] + rest)
  }

  /** What the join stage produces: df_estados and df_final. */
  datatype JoinOutput = JoinOutput(estados: seq<Feature>, final: seq<FinalRow>)

  /**
   * The whole join stage, from novo_df and the document's features. It
   * fails when no feature is a candidate, and otherwise exactly when some
   * matched row of novo_df has a value that does not coerce.
   */
  function Join(novo: seq<DiseaseRow>, features: seq<Feature>): (r: Result<JoinOutput, Error>)
    ensures SelectFeatures(features, Candidates(novo)) == [] ==> r == Err(EmptyFeatureTable)
    ensures r.Ok? ==> r.value.estados == SelectFeatures(features, Candidates(novo)) && r.value.estados != []
    ensures r.Err? && SelectFeatures(features, Candidates(novo)) != [] ==>
              exists row :: row in novo && Matches(row, SelectFeatures(features, Candidates(novo))) != [] && Coerce(row.value) == Err(r.error)
    ensures (exists row :: row in novo && Matches(row, SelectFeatures(features, Candidates(novo))) != [] && Coerce(row.value).Err?) ==> r.Err?
  {
    var table := SelectFeatures(features, Candidates(novo));
    if table == [] then Err(EmptyFeatureTable)
    else
      CoercionErrorOrigin(novo, table);
      assert (exists row :: row in novo && Matches(row, table) != [] && Coerce(row.value).Err?) ==>
             CoerceValues(Reshape(DropUnmatched(LeftMerge(novo, table)))).Err? by {
        if row :| row in novo && Matches(row, table) != [] && Coerce(row.value).Err? {
          MatchedCoercionFails(novo, table, row);
        }
      }
      var final :- CoerceValues(Reshape(DropUnmatched(LeftMerge(novo, table))));
      Ok(JoinOutput(table, final))
  }

  /** A failed coercion of the matched rows is the failure of some matched row of novo_df. */
  lemma CoercionErrorOrigin(novo: seq<DiseaseRow>, table: seq<Feature>)
    ensures var c := CoerceValues(Reshape(DropUnmatched(LeftMerge(novo, table))));
            c.Err? ==> exists row :: row in novo && Matches(row, table) != [] && Coerce(row.value) == Err(c.error)
  {
    var merged := DropUnmatched(LeftMerge(novo, table));
    var c := CoerceValues(Reshape(merged));
    if c.Err? {
      var i :| 0 <= i < |merged| && Coerce(Reshape(merged)[i].value) == Err(c.error);
      var x := merged[i];
      assert x in merged;
      assert x.right.value in Matches(x.left, table);
    }
  }

  /** A matched row of novo_df whose value does not coerce makes the coercion of the join fail. */
  lemma MatchedCoercionFails(novo: seq<DiseaseRow>, table: seq<Feature>, row: DiseaseRow)
    requires row in novo && Matches(row, table) != [] && Coerce(row.value).Err?
    ensures CoerceValues(Reshape(DropUnmatched(LeftMerge(novo, table)))).Err?
  {
    var f := Matches(row, table)[0];
    assert f in Matches(row, table);
    var x := Merged(row, Some(f));
    assert Joins(x, table);
    assert x in LeftMerge(novo, table);
    var merged := DropUnmatched(LeftMerge(novo, table));
    assert x in merged;
    var i :| 0 <= i < |merged| && merged[i] == x;
    var joined := Reshape(merged);
    assert joined[i].value == row.value;
    assert !Coerce(joined[i].value).Ok?;
  }

  /** Every inner-join pair is a row of novo_df and a row of df_estados with the same name. */
  lemma {:induction false} InnerMergeMembers(novo: seq<DiseaseRow>, table: seq<Feature>)
    ensures forall x :: x in InnerMerge(novo, table) ==>
              x.right.Some? && x.left in novo && x.right.value in table && x.left.region == Str(x.right.value.name)
  {
    if novo != [] {
      InnerMergeMembers(novo[1..], table);
      var m := Matches(novo[0], table);
      forall x | x in Paired(novo[0], m)
        ensures x.right.Some? && x.right.value in m && x.left == novo[0]
      {
        var j :| 0 <= j < |m| && Paired(novo[0], m)[j] == x;
      }
    }
  }

  /**
   * What df_final is: row i is the i-th inner-join pair, renamed and
   * with its value coerced; each row's (UF, Estados)
   * is a feature of the document, Estados is the region of a novo_df row
   * with the same disease and year whose value coerces to the row's value,
   * and Estados is never the country or a macro-region.
   */
  lemma JoinSpec(novo: seq<DiseaseRow>, features: seq<Feature>)
    requires Join(novo, features).Ok?
    ensures var out := Join(novo, features).value;
            out.estados == SelectFeatures(features, Candidates(novo))
    ensures var out := Join(novo, features).value;
            |out.final| == |InnerMerge(novo, out.estados)|
    ensures var out := Join(novo, features).value;
            var inner := InnerMerge(novo, out.estados);
            forall i :: 0 <= i < |inner| ==>
              && inner[i].right.Some? && Coerce(inner[i].left.value).Ok?
              && out.final[i] == FinalRow(inner[i].left.disease, Coerce(inner[i].left.value).value, inner[i].left.year,
                                          inner[i].right.value.id, inner[i].right.value.name)
    ensures var out := Join(novo, features).value;
            forall i :: 0 <= i < |out.final| ==> FromFeatureAndRow(out.final[i], novo, features)
  {
    var out := Join(novo, features).value;
    var table := SelectFeatures(features, Candidates(novo));
    var inner := DropUnmatched(LeftMerge(novo, table));
    LeftMergeThenDropIsInner(novo, table);
    InnerMergeMembers(novo, table);
    forall i | 0 <= i < |out.final|
      ensures FromFeatureAndRow(out.final[i], novo, features)
    {
      FinalRowOrigin(novo, features, inner, out.final, i);
    }
  }

  lemma FinalRowOrigin(novo: seq<DiseaseRow>, features: seq<Feature>, inner: seq<Merged>, final: seq<FinalRow>, i: nat)
    requires inner == InnerMerge(novo, SelectFeatures(features, Candidates(novo)))
    requires forall x :: x in inner ==> x.right.Some?
    requires CoerceValues(Reshape(inner)) == Ok(final)
    requires i < |final|
    ensures FromFeatureAndRow(final[i], novo, features)
  {
    var table := SelectFeatures(features, Candidates(novo));
    InnerMergeMembers(novo, table);
    var joined := Reshape(inner);
    var x := inner[i];
    assert x in inner;
    var row, f := x.left, x.right.value;
    assert joined[i] == JoinedRow(row.disease, row.value, row.year, f.id, f.name);
    var y := final[i];
    assert y == FinalRow(row.disease, Coerce(row.value).value, row.year, f.id, f.name);
    assert Coerce(row.value).Ok?;
    assert row in novo && row.region == Str(f.name);
    assert f in table;
    assert f in features && f.name in Candidates(novo);
    assert Feature(y.uf, y.estados) == f;
  }

  /**
   * Row y of df_final comes from a feature of the document whose name is a
   * candidate (so never the country or a macro-region) and from a novo_df
   * row of that region with the same disease and year whose value coerces
   * to y's value.
   */
  predicate FromFeatureAndRow(y: FinalRow, novo: seq<DiseaseRow>, features: seq<Feature>) {
    && y.estados !in MacroRegions
    && Feature(y.uf, y.estados) in features
    && exists row :: row in novo && row.region == Str(y.estados)
                     && row.disease == y.disease && row.year == y.year
                     && Coerce(row.value) == Ok(y.value)
  }
}
