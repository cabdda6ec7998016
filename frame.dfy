/**
 * The data-frame operations the startup script applies to the fetched
 * payload (app.py:19-30): building the frame, promoting row 0 to the
 * header, looking a column up by label, `replace` on one column, the
 * `~isin` row filter and `sort_values`.
 */
module Frame {
  import opened Wrappers
  import opened Cells

  /** One row of a frame, cells in column order. */
  type Row = seq<Cell>

  /** The decoded JSON payload: rows of positional string fields. */
  type Payload = seq<seq<string>>

  /** A frame: its column labels and its rows. */
  datatype Table = Table(columns: seq<Cell>, rows: seq<Row>)

  predicate Rectangular(t: Table) {
    forall r :: r in t.rows ==> |r| == |t.columns|
  }

  /** Cell k of a row; a row too short to have one holds nothing there. */
  function At(r: Row, k: nat): Cell {
    if k < |r| then r[k] else Missing
  }

  /** The frame's width: the length of the longest payload row. */
  function Width(raw: Payload): (w: nat)
    ensures forall i :: 0 <= i < |raw| ==> |raw[i]| <= w
    ensures raw == [] ==> w == 0
    ensures raw != [] ==> exists i :: 0 <= i < |raw| && |raw[i]| == w
  {
    if raw == [] then 0
    else
      var w := Width(raw[1..]);
      assert forall i :: 1 <= i < |raw| ==> raw[i] == raw[1..][i - 1];
      if |raw[0]| > w then |raw[0]| else w
  }

  /** One payload row as a frame row of width w, padded with missing cells. */
  function Pad(fields: seq<string>, w: nat): Row
    requires |fields| <= w
  {
    seq(w, j requires 0 <= j < w => if j < |fields| then Str(fields[j]) else Missing)
  }

  /**
   * `df = pd.DataFrame(data); df.columns = df.iloc[0]; df = df.drop(0)`:
   * row 0 labels the columns and the remaining rows are the data, in order.
   */
  function PromoteHeader(raw: Payload): (r: Result<Table, Error>)
    ensures r.Err? <==> raw == []
    ensures r.Err? ==> r.error == EmptyPayload
    ensures r.Ok? ==> Rectangular(r.value) && |r.value.rows| == |raw| - 1
    ensures r.Ok? ==> |r.value.columns| == Width(raw)
    ensures r.Ok? ==> forall j :: 0 <= j < |r.value.columns| ==>
                        r.value.columns[j] == if j < |raw[0]| then Str(raw[0][j]) else Missing
    ensures r.Ok? ==> forall i, j :: 0 <= i < |r.value.rows| && 0 <= j < |r.value.columns| ==>
                        r.value.rows[i][j] == if j < |raw[i + 1]| then Str(raw[i + 1][j]) else Missing
    ensures r.Ok? ==> forall i :: 0 <= i < |raw| ==> |raw[i]| <= |r.value.columns|
  {
    if raw == [] then Err(EmptyPayload)
    else
      var w := Width(raw);
      var frame := seq(|raw|, i requires 0 <= i < |raw| => Pad(raw[i], w));
      Ok(Table(frame[0], frame[1..]))
  }

  /** The first position of x in s. */
  function IndexOf(s: seq<Cell>, x: Cell): (i: nat)
    requires x in s
    ensures i < |s| && s[i] == x && x !in s[..i]
  {
    if s[0] == x then 0 else 1 + IndexOf(s[1..], x)
  }

  /**
   * `df[name]`: the position of the one column labelled name. A label
   * that is absent raises KeyError; a label that occurs twice is refused.
   */
  function ColumnIndex(columns: seq<Cell>, name: string): (r: Result<nat, Error>)
    ensures r.Ok? ==> r.value < |columns| && columns[r.value] == Str(name)
    ensures r.Ok? ==> forall j :: 0 <= j < |columns| && j != r.value ==> columns[j] != Str(name)
    ensures r == Err(MissingColumn(name)) <==> Str(name) !in columns
    ensures r.Err? ==> r.error == MissingColumn(name)
                       || (r.error == DuplicateColumn(name)
                           && exists i, j :: 0 <= i < j < |columns| && columns[i] == Str(name) && columns[j] == Str(name))
  {
    if Str(name) !in columns then Err(MissingColumn(name))
    else
      var i := IndexOf(columns, Str(name));
      if Str(name) in columns[i + 1..] then
        var j :| i + 1 <= j < |columns| && columns[j] == Str(name);
        Err(DuplicateColumn(name))
      else
        assert forall j :: i < j < |columns| ==> columns[j] == columns[i + 1..][j - i - 1];
        Ok(i)
  }

  /** `series.replace(from, to)` on column k of one row. */
  function ReplaceCell(r: Row, k: nat, from: Cell, to: Cell): Row {
    if k < |r| && r[k] == from then r[k := to] else r
  }

  /**
   * `df[col] = df[col].replace(from, to)`: in column k every cell equal
   * to from becomes to; every other cell, in that column or any other, is
   * kept, and so are the rows and their order.
   */
  function Replace(rows: seq<Row>, k: nat, from: Cell, to: Cell): (r: seq<Row>)
    ensures |r| == |rows|
    ensures forall i :: 0 <= i < |rows| ==> |r[i]| == |rows[i]|
    ensures forall i, j :: 0 <= i < |rows| && 0 <= j < |rows[i]| && (j != k || rows[i][j] != from) ==>
              r[i][j] == rows[i][j]
    ensures forall i :: 0 <= i < |rows| && At(rows[i], k) == from && k < |rows[i]| ==> At(r[i], k) == to
    ensures from != to ==> forall i :: 0 <= i < |rows| && k < |rows[i]| ==> r[i][k] != from
  {
    seq(|rows|, i requires 0 <= i < |rows| => ReplaceCell(rows[i], k, from, to))
  }

  /**
   * `df.loc[~df[col].isin(labels)]`: exactly the rows whose cell in column
   * k is not one of labels survive, each as often as it occurred.
   */
  function DropWhereIn(rows: seq<Row>, k: nat, labels: set<Cell>): (r: seq<Row>)
    ensures forall row :: row in r ==> row in rows && At(row, k) !in labels
    ensures forall row :: multiset(r)[row] == if At(row, k) in labels then 0 else multiset(rows)[row]
    ensures |r| <= |rows|
  {
    if rows == [] then []
    else
      assert rows == [rows[0]] + rows[1..];
      var rest := DropWhereIn(rows[1..], k, labels);
      if At(rows[0], k) in labels then rest else [rows[0]] + rest
  }

  /** Python's `<=` on str: lexicographic by code point. */
  predicate StrLe(a: string, b: string) {
    if a == [] then true
    else if b == [] then false
    else if a[0] != b[0] then a[0] < b[0]
    else StrLe(a[1..], b[1..])
  }

  lemma {:induction false} StrLeTotal(a: string, b: string)
    ensures StrLe(a, b) || StrLe(b, a)
  {
    if a != [] && b != [] && a[0] == b[0] {
      StrLeTotal(a[1..], b[1..]);
    }
  }

  lemma {:induction false} StrLeTransitive(a: string, b: string, c: string)
    requires StrLe(a, b) && StrLe(b, c)
    ensures StrLe(a, c)
  {
    if a != [] && b != [] && c != [] && a[0] == b[0] == c[0] {
      StrLeTransitive(a[1..], b[1..], c[1..]);
    }
  }

  /**
   * The order `sort_values` puts a column in: texts by StrLe, then numbers,
   * then missing values last (na_position="last"). The sorted column only
   * ever holds texts and missing values; the number case completes the order.
   */
  predicate KeyLe(a: Cell, b: Cell) {
    match (a, b)
    case (Str(x), Str(y)) => StrLe(x, y)
    case (Str(_), _) => true
    case (Num(x), Num(y)) => x <= y
    case (Num(_), Missing) => true
    case (Num(_), Str(_)) => false
    case (Missing, Missing) => true
    case (Missing, _) => false
  }

  lemma KeyLeTotal(a: Cell, b: Cell)
    ensures KeyLe(a, b) || KeyLe(b, a)
  {
    if a.Str? && b.Str? {
      StrLeTotal(a.text, b.text);
    }
  }

  lemma KeyLeTransitive(a: Cell, b: Cell, c: Cell)
    requires KeyLe(a, b) && KeyLe(b, c)
    ensures KeyLe(a, c)
  {
    if a.Str? && b.Str? && c.Str? {
      StrLeTransitive(a.text, b.text, c.text);
    }
  }

  /** Rows in ascending order of their cell in column k. */
  predicate SortedBy(rows: seq<Row>, k: nat) {
    forall i, j :: 0 <= i < j < |rows| ==> KeyLe(At(rows[i], k), At(rows[j], k))
  }

  function Insert(x: Row, s: seq<Row>, k: nat): seq<Row> {
    if s == [] then [x]
    else if KeyLe(At(x, k), At(s[0], k)) then [x] + s
    else [s[0]] + Insert(x, s[1..], k)
  }

  /**
   * `sort_values(by=col)`: pandas' default quicksort promises no order
   * among equal keys; this is the stable insertion sort, one of the
   * orders it may produce.
   */
  function SortRows(rows: seq<Row>, k: nat): (r: seq<Row>)
    ensures SortedBy(r, k)
    ensures multiset(r) == multiset(rows)
    ensures |r| == |rows|
  {
    if rows == [] then []
    else
      var sorted := SortRows(rows[1..], k);
      InsertSorted(rows[0], sorted, k);
      assert rows == [rows[0]] + rows[1..];
      Insert(rows[0], sorted, k)
  }

  /** Inserting adds exactly one copy of the row. */
  lemma {:induction false} InsertPermutation(x: Row, s: seq<Row>, k: nat)
    ensures multiset(Insert(x, s, k)) == multiset(s) + multiset{x}
  {
    if s != [] && !KeyLe(At(x, k), At(s[0], k)) {
      InsertPermutation(x, s[1..], k);
      assert s == [s[0]] + s[1..];
    }
  }

  /** A key no greater than the inserted row's and than every row of s is no greater than any row of the result. */
  lemma InsertLowerBound(x: Row, s: seq<Row>, k: nat, lo: Cell)
    requires KeyLe(lo, At(x, k))
    requires forall j :: 0 <= j < |s| ==> KeyLe(lo, At(s[j], k))
    ensures forall j :: 0 <= j < |Insert(x, s, k)| ==> KeyLe(lo, At(Insert(x, s, k)[j], k))
  {
    var t := Insert(x, s, k);
    InsertPermutation(x, s, k);
    forall j | 0 <= j < |t|
      ensures KeyLe(lo, At(t[j], k))
    {
      assert t[j] in multiset(t);
      if t[j] != x {
        assert t[j] in multiset(s);
        var m :| 0 <= m < |s| && s[m] == t[j];
      }
    }
  }

  lemma {:induction false} InsertSorted(x: Row, s: seq<Row>, k: nat)
    requires SortedBy(s, k)
    ensures SortedBy(Insert(x, s, k), k)
    ensures multiset(Insert(x, s, k)) == multiset(s) + multiset{x}
  {
    InsertPermutation(x, s, k);
    if s == [] {
    } else if KeyLe(At(x, k), At(s[0], k)) {
      var r := [x] + s;
      forall i, j | 0 <= i < j < |r|
        ensures KeyLe(At(r[i], k), At(r[j], k))
      {
        if i == 0 && j > 1 {
          KeyLeTransitive(At(x, k), At(s[0], k), At(s[j - 1], k));
        }
      }
    } else {
      var t := Insert(x, s[1..], k);
      InsertSorted(x, s[1..], k);
      KeyLeTotal(At(x, k), At(s[0], k));
      InsertLowerBound(x, s[1..], k, At(s[0], k));
      var r := [s[0]] + t;
      forall i, j | 0 <= i < j < |r|
        ensures KeyLe(At(r[i], k), At(r[j], k))
      {
        if i > 0 {
          assert r[i] == t[i - 1] && r[j] == t[j - 1];
        }
      }
    }
  }
}
