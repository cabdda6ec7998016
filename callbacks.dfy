/**
 * The logic inside the dashboard's callbacks (app.py:158-236): the theme
 * icon toggle, the stylesheet choice, the process-global `theme_changed`
 * flag driven by the parity of the icon's click count, and the row
 * filters that feed the data table, the histogram and the map.
 */
module Callbacks {
  import opened Wrappers
  import opened Cells
  import opened Frame
  import opened Normalization
  import opened GeoJoin

  const LightIcon := "assets/img/sun.png"
  const NightIcon := "assets/img/moon.png"
  const LightCss := "assets/light-style.css"
  const DarkCss := "assets/dark-style.css"

  /** `toggle_theme`: the light icon is replaced by the night icon, anything else by the light icon. */
  function ToggleTheme(src: string): (icon: string)
    ensures icon == LightIcon || icon == NightIcon
    ensures icon == NightIcon <==> src == LightIcon
  {
    if src == LightIcon then NightIcon else LightIcon
  }

  /** `update_css`: the light stylesheet while the icon shown is the light one, else the dark one. */
  function UpdateCss(src: string): (href: string)
    ensures href == LightCss || href == DarkCss
    ensures href == LightCss <==> src == LightIcon
  {
    var theme := if src == LightIcon then "light-style" else "dark-style";
    "assets/" + theme + ".css"
  }

  /** The `theme_changed` update shared by `update_histogram` and `update_map`. */
  function NextThemeChanged(flag: bool, nClicks: Option<nat>): (changed: bool)
    ensures nClicks == None ==> changed == flag
    ensures nClicks.Some? ==> (changed <==> nClicks.value % 2 == 1)
  {
    if nClicks.Some? && nClicks.value % 2 == 0 then false
    else if nClicks.Some? then true
    else flag
  }

  /** The plotly template a figure is drawn with. */
  function Template(themeChanged: bool): (t: string)
    ensures t == "plotly_dark" <==> themeChanged
    ensures !themeChanged ==> t == "plotly"
  {
    if themeChanged then "plotly_dark" else "plotly"
  }

  /** `novo_df[novo_df[region] == value]`: the rows of one region, in order; none when the dropdown is cleared. */
  function RowsOfRegion(novo: seq<DiseaseRow>, value: Option<string>): (r: seq<DiseaseRow>)
    ensures forall row :: row in r <==> row in novo && value.Some? && row.region == Str(value.value)
    ensures forall row :: multiset(r)[row] == if value.Some? && row.region == Str(value.value) then multiset(novo)[row] else 0
    ensures value == None ==> r == []
    ensures |r| <= |novo|
  {
    if novo == [] then []
    else
      assert novo == [novo[0]] + novo[1..];
      var rest := RowsOfRegion(novo[1..], value);
      if value.Some? && novo[0].region == Str(value.value) then [novo[0]] + rest else rest
  }

  /** The boolean mask keeps novo_df's order, so the rows of a region stay sorted by disease type. */
  lemma {:induction false} RowsOfRegionSorted(novo: seq<DiseaseRow>, value: Option<string>)
    requires ByDisease(novo)
    ensures ByDisease(RowsOfRegion(novo, value))
  {
    if novo != [] {
      var rest := RowsOfRegion(novo[1..], value);
      assert ByDisease(novo[1..]) by {
        forall i, j | 0 <= i < j < |novo[1..]|
          ensures KeyLe(novo[1..][i].disease, novo[1..][j].disease)
        {
          assert novo[1..][i] == novo[i + 1] && novo[1..][j] == novo[j + 1];
        }
      }
      RowsOfRegionSorted(novo[1..], value);
      if value.Some? && novo[0].region == Str(value.value) {
        SortedCons(novo[0], novo[1..], rest);
      }
    }
  }

  /** A row no greater than every later row of a sorted table stays first before any part of that table. */
  lemma SortedCons(head: DiseaseRow, tail: seq<DiseaseRow>, part: seq<DiseaseRow>)
    requires forall j :: 0 <= j < |tail| ==> KeyLe(head.disease, tail[j].disease)
    requires forall y :: y in part ==> y in tail
    requires ByDisease(part)
    ensures ByDisease([head] + part)
  {
    var r := [head] + part;
    forall i, j | 0 <= i < j < |r|
      ensures KeyLe(r[i].disease, r[j].disease)
    {
      assert r[j] == part[j - 1];
      if i == 0 {
        assert part[j - 1] in part;
        var m :| 0 <= m < |tail| && tail[m] == part[j - 1];
      } else {
        assert r[i] == part[i - 1];
      }
    }
  }

  /** One record of the data table: disease, level, "Quantidade de Casos" and year. */
  datatype TableEntry = TableEntry(disease: Cell, level: Cell, cases: Cell, year: Cell)

  function Entry(row: DiseaseRow): TableEntry {
    TableEntry(row.disease, row.level, row.value, row.year)
  }

  /**
   * `update_table`: the records of the chosen region without its region
   * and code columns, "Valor" renamed; one per row, in novo_df's order.
   */
  function UpdateTable(novo: seq<DiseaseRow>, value: Option<string>): (r: seq<TableEntry>)
    ensures value == None ==> r == []
    ensures |r| == |RowsOfRegion(novo, value)|
    ensures forall i :: 0 <= i < |r| ==> r[i] == Entry(RowsOfRegion(novo, value)[i])
    ensures forall e :: e in r <==> exists row :: row in novo && value.Some? && row.region == Str(value.value) && e == Entry(row)
  {
    var rows := RowsOfRegion(novo, value);
    var r := seq(|rows|, i requires 0 <= i < |rows| => Entry(rows[i]));
    assert forall e :: e in r ==> exists i :: 0 <= i < |rows| && e == Entry(rows[i]);
    assert forall row :: row in rows ==> Entry(row) in r by {
      forall row | row in rows
        ensures Entry(row) in r
      {
        var i :| 0 <= i < |rows| && rows[i] == row;
        assert r[i] == Entry(row);
      }
    }
    r
  }

  /** The data table lists its records in ascending disease order whenever novo_df is sorted that way. */
  lemma UpdateTableSorted(novo: seq<DiseaseRow>, value: Option<string>)
    requires ByDisease(novo)
    ensures var r := UpdateTable(novo, value);
            forall i, j :: 0 <= i < j < |r| ==> KeyLe(r[i].disease, r[j].disease)
  {
    var rows := RowsOfRegion(novo, value);
    RowsOfRegionSorted(novo, value);
    var r := UpdateTable(novo, value);
    forall i, j | 0 <= i < j < |r|
      ensures KeyLe(r[i].disease, r[j].disease)
    {
      assert r[i].disease == rows[i].disease && r[j].disease == rows[j].disease;
    }
  }

  /** `df_final[df_final["Tipo de doença"] == selected]`: the map's rows for one disease, in order. */
  function RowsOfDisease(final: seq<FinalRow>, selected: Option<string>): (r: seq<FinalRow>)
    ensures forall y :: y in r <==> y in final && selected.Some? && y.disease == Str(selected.value)
    ensures forall y :: multiset(r)[y] == if selected.Some? && y.disease == Str(selected.value) then multiset(final)[y] else 0
    ensures |r| <= |final|
  {
    if final == [] then []
    else
      assert final == [final[0]] + final[1..];
      var rest := RowsOfDisease(final[1..], selected);
      if selected.Some? && final[0].disease == Str(selected.value) then [final[0]] + rest else rest
  }

  /**
   * The running dashboard: the tables built at startup, which the
   * callbacks only read, and the process-global `theme_changed` flag,
   * which the histogram and map callbacks update.
   */
  class Dashboard {
    const novo: seq<DiseaseRow>
    const final: seq<FinalRow>
    var themeChanged: bool

    constructor (novo: seq<DiseaseRow>, final: seq<FinalRow>)
      ensures this.novo == novo && this.final == final
      ensures !themeChanged
    {
      this.novo := novo;
      this.final := final;
      themeChanged := false;
    }

    /** `update_histogram`: the flag update, the figure's template and the rows it plots. */
    method UpdateHistogram(value: Option<string>, nClicks: Option<nat>) returns (template: string, rows: seq<DiseaseRow>)
      modifies this
      ensures themeChanged == NextThemeChanged(old(themeChanged), nClicks)
      ensures template == Template(themeChanged)
      ensures rows == RowsOfRegion(novo, value)
    {
      rows := RowsOfRegion(novo, value);
      if nClicks.Some? && nClicks.value % 2 == 0 {
        themeChanged := false;
      } else if nClicks.Some? {
        themeChanged := true;
      }
      template := if themeChanged then "plotly_dark" else "plotly";
    }

    /** `update_map`: the flag update, the figure's template and the rows it colours. */
    method UpdateMap(selected: Option<string>, nClicks: Option<nat>) returns (template: string, rows: seq<FinalRow>)
      modifies this
      ensures themeChanged == NextThemeChanged(old(themeChanged), nClicks)
      ensures template == Template(themeChanged)
      ensures rows == RowsOfDisease(final, selected)
    {
      if nClicks.Some? && nClicks.value % 2 == 0 {
        themeChanged := false;
      } else if nClicks.Some? {
        themeChanged := true;
      }
      rows := RowsOfDisease(final, selected);
      template := if themeChanged then "plotly_dark" else "plotly";
    }

    /**
     * A browser loading the page: Dash runs every callback once with
     * n_clicks None, each reading the icon's src from the layout. The flag
     * is the one the process already holds, which an earlier session may
     * have set.
     */
    method Load(value: Option<string>, selected: Option<string>) returns (s: Screen)
      modifies this
      ensures s == Loaded(old(themeChanged))
      ensures themeChanged == s.themeChanged
    {
      var icon := ToggleTheme(LightIcon);
      var css := UpdateCss(LightIcon);
      var _, _ := UpdateHistogram(value, None);
      var _, _ := UpdateMap(selected, None);
      s := Screen(icon, css, themeChanged);
    }

    /** The n-th click on the icon of a page showing shown: every callback reads the src shown before it. */
    method ClickIcon(shown: Screen, n: nat, value: Option<string>, selected: Option<string>) returns (s: Screen)
      modifies this
      ensures s == Click(shown, n)
      ensures themeChanged == s.themeChanged
    {
      var icon := ToggleTheme(shown.icon);
      var css := UpdateCss(shown.icon);
      var _, _ := UpdateHistogram(value, Some(n));
      var _, _ := UpdateMap(selected, Some(n));
      s := Screen(icon, css, themeChanged);
    }
  }

  /** What the page shows: the icon's src, the stylesheet's href and the flag the figures are drawn with. */
  datatype Screen = Screen(icon: string, css: string, themeChanged: bool)

  /**
   * The page after loading while the process holds flag: the layout shows
   * the light icon, and every callback runs once with n_clicks None, each
   * reading the icon's src as it was in the layout.
   */
  function Loaded(flag: bool): Screen {
    Screen(ToggleTheme(LightIcon), UpdateCss(LightIcon), NextThemeChanged(flag, None))
  }

  /** The page after the icon's n-th click: every callback reads the src shown before it. */
  function Click(s: Screen, n: nat): Screen {
    Screen(ToggleTheme(s.icon), UpdateCss(s.icon), NextThemeChanged(s.themeChanged, Some(n)))
  }

  /** A session that loads the page while the process holds flag, then clicks the icon k times. */
  function AfterClicks(flag: bool, k: nat): Screen {
    if k == 0 then Loaded(flag) else Click(AfterClicks(flag, k - 1), k)
  }

  /** The figures are dark exactly when the dark stylesheet is in use and the icon offers the light theme. */
  predicate Consistent(s: Screen) {
    && (s.css == DarkCss <==> s.themeChanged)
    && (s.icon == LightIcon <==> s.themeChanged)
    && (s.icon == NightIcon <==> !s.themeChanged)
  }

  /**
   * Within one session, stylesheet and icon follow the parity of the
   * clicks; the figures follow it too once the icon has been clicked, but
   * on the page load they keep whatever flag the process held.
   */
  lemma {:induction false} ThemeAfterClicks(flag: bool, k: nat)
    ensures AfterClicks(flag, k).themeChanged <==> if k == 0 then flag else k % 2 == 1
    ensures AfterClicks(flag, k).css == DarkCss <==> k % 2 == 1
    ensures AfterClicks(flag, k).icon == LightIcon <==> k % 2 == 1
    ensures AfterClicks(flag, k).icon == NightIcon <==> k % 2 == 0
  {
    if k > 0 {
      ThemeAfterClicks(flag, k - 1);
    }
  }

  /**
   * The page is consistent after loading and k clicks exactly when the
   * icon has been clicked or the process flag was clear at the load.
   */
  lemma ThemeStaysConsistent(flag: bool, k: nat)
    ensures Consistent(AfterClicks(flag, k)) <==> !flag || k > 0
  {
    ThemeAfterClicks(flag, k);
  }

  /**
   * The flag is process-global, so one session's clicks reach the next
   * page load: after one click in a first session, a second browser (or a
   * reload) draws dark figures beside the light stylesheet and the night icon.
   */
  lemma StaleThemeAfterReload()
    ensures var first := AfterClicks(false, 1);
            var second := AfterClicks(first.themeChanged, 0);
            && second.themeChanged && second.css == LightCss && second.icon == NightIcon
            && !Consistent(second)
  {
  }

  /**
   * The template taken from the icon's src, which the figure callbacks
   * already receive as State: light exactly when update_css picks the
   * light stylesheet.
   */
  function TemplateOf(src: string): (t: string)
    ensures t == "plotly" <==> UpdateCss(src) == LightCss
    ensures t == "plotly_dark" <==> UpdateCss(src) == DarkCss
  {
    if src == LightIcon then "plotly" else "plotly_dark"
  }

  /** A session of the corrected page: nothing global, the figures' theme comes from the src each callback reads. */
  function SessionAfterClicks(k: nat): Screen {
    if k == 0 then Screen(ToggleTheme(LightIcon), UpdateCss(LightIcon), TemplateOf(LightIcon) == "plotly_dark")
    else
      var s := SessionAfterClicks(k - 1);
      Screen(ToggleTheme(s.icon), UpdateCss(s.icon), TemplateOf(s.icon) == "plotly_dark")
  }

  /** With the template taken from the src, every session is consistent after any number of clicks, whatever other sessions did. */
  lemma {:induction false} SessionThemeConsistent(k: nat)
    ensures Consistent(SessionAfterClicks(k))
    ensures SessionAfterClicks(k).themeChanged <==> k % 2 == 1
  {
    if k > 0 {
      SessionThemeConsistent(k - 1);
    }
  }
}
