/**
  What the four tabs of the sushi-market dashboard show for a given
  spreadsheet: for every chart, whether it is drawn, from which columns and
  from which rows, or which "not found" note takes its place. Drawing itself
  is not modelled; a chart is represented by the data it is drawn from.
*/
module Dashboard {
  import opened Wrappers
  import opened Subsequences
  import opened ColumnRoles
  import opened Frames

  // Question headers of the survey sheet, matched by exact name.
  const PurposeHeader := "цель посещения"
  const FrequencyHeader := "Как часто посещают суши-рестораны"
  const KnownHeader := "Какие суши-рестораны в г. Омск  знают"
  const VisitedHeader := "В какие суши-рестораны в г. Омск бычно ходят"
  const PopularHeader := "Какой суши-ресторан  посещают чаще всего"

  // Their count columns: the first, second, third and fourth `кол-во` of the sheet.
  const PurposeCount := "кол-во"
  const KnownCount := "кол-во.1"
  const VisitedCount := "кол-во.2"
  const PopularCount := "кол-во.3"

  const ScoreHeader := "балл"
  const ShareHeader := "%"

  const PriceWarningText := "🔍 Не найдены колонки с ценовыми данными. Проверьте структуру файла."
  const MaxPriceMissing := "💭 Данные о максимальной цене не найдены"
  const MinPriceMissing := "💭 Данные о минимальной цене не найдены"
  const SatisfactionWarningText := "🔍 Не найдены колонки с данными об удовлетворенности."
  const GeneralSatisfactionMissing := "💭 Данные об общей удовлетворенности не найдены"
  const CharacteristicsMissing := "💭 Данные об оценке характеристик не найдены"

  /** An exception raised while the page is drawn. Nothing in `main` catches
      it, so it ends the page: no later chart and no later tab appears. */
  datatype Failure = KeyError(column: string) | TypeError

  /** What one place of a tab shows. A chart of two columns puts the answers
      (`category`) against their count, score or share (`measure`), whichever
      axis or slice each one is drawn on. */
  datatype Panel =
    | Hidden                                                                  // nothing
    | Note(text: string)                                                      // an info line
    | PairChart(category: string, measure: string, rows: seq<(Cell, Cell)>)
    | RankedChart(category: string, measure: string, ranked: seq<(Cell, real)>)  // rows sorted by count
    | ValueChart(column: string, values: seq<Cell>)                           // a histogram or box of one column
    | Raised(failure: Failure)

  /** A chart of column `b` against column `a` over the rows that have both,
      drawn only when both headers exist and such a row exists; otherwise nothing. */
  function PairPanel(t: Table, a: string, b: string): (p: Panel)
    requires WellFormed(t)
    ensures p.Hidden? || p.PairChart?
    ensures p.PairChart? <==> a in t.headers && b in t.headers && HasCompleteRow(t, a, b)
    ensures p.PairChart? ==> p.category == a && p.measure == b && p.rows == Selection(t, a, b)
  {
    if a in t.headers && b in t.headers then
      var rows := Selection(t, a, b);
      if rows == [] then Hidden else PairChart(a, b, rows)
    else Hidden
  }

  /** The same, with the rows sorted by their count, ascending or descending. */
  function RankedPanel(t: Table, a: string, b: string, ascending: bool): (p: Panel)
    requires WellFormed(t)
    ensures p.Hidden? || p.RankedChart? || p == Raised(TypeError)
    ensures p.Hidden? <==> !(a in t.headers && b in t.headers && HasCompleteRow(t, a, b))
    ensures p.Raised? <==> a in t.headers && b in t.headers && NumericCounts(Selection(t, a, b)).None?
    ensures p.RankedChart? ==>
      && p.category == a && p.measure == b
      && a in t.headers && b in t.headers
      && NumericCounts(Selection(t, a, b)).Some?
      && SortedBy(p.ranked, ascending)
      && multiset(p.ranked) == multiset(NumericCounts(Selection(t, a, b)).value)
      && p.ranked != []
  {
    if a in t.headers && b in t.headers then
      var rows := Selection(t, a, b);
      if rows == [] then Hidden
      else match NumericCounts(rows)
        case None => Raised(TypeError)
        case Some(counted) =>
          var ranked := SortByCount(counted, ascending);
          assert |ranked| == |counted| by {
            assert |multiset(ranked)| == |multiset(counted)|;
          }
          RankedChart(a, b, ranked)
    else Hidden
  }

  // ---------------------------------------------------------------- attendance tab

  /** The visit-frequency chart as the source has it: the fallback count
      column `кол-во` is used without checking that it exists, and selecting
      a missing column raises a `KeyError` naming it. */
  function FrequencyPanelAsWritten(t: Table): (p: Panel)
    requires WellFormed(t)
    ensures p.Hidden? || p.PairChart? || p.Raised?
    ensures p.Raised? ==> p.failure == KeyError(FrequencyColumn(t.headers)) && FrequencyColumn(t.headers) !in t.headers
  {
    if FrequencyHeader !in t.headers then Hidden
    else
      var col := FrequencyColumn(t.headers);
      if col !in t.headers then Raised(KeyError(col))
      else PairPanel(t, FrequencyHeader, col)
  }

  /** The visit-frequency chart with the count column checked as every other
      chart checks its columns: it is drawn from the question and the count
      column `FrequencyColumn` picks, when both exist and some row has both. */
  function FrequencyPanel(t: Table): (p: Panel)
    requires WellFormed(t)
    ensures p.Hidden? || p.PairChart?
    ensures p.PairChart? <==>
              && FrequencyHeader in t.headers && FrequencyColumn(t.headers) in t.headers
              && HasCompleteRow(t, FrequencyHeader, FrequencyColumn(t.headers))
    ensures p.PairChart? ==>
              && p.category == FrequencyHeader && p.measure == FrequencyColumn(t.headers) && IsCountHeader(p.measure)
              && p.rows == Selection(t, FrequencyHeader, p.measure)
  {
    PairPanel(t, FrequencyHeader, FrequencyColumn(t.headers))
  }

  /** The source raises exactly when the question is present and the count
      column it falls back to is not; whenever it does not raise it shows
      what the corrected chart shows. */
  lemma FrequencyPanelAsWrittenRaises(t: Table)
    requires WellFormed(t)
    ensures FrequencyPanelAsWritten(t).Raised? <==>
              FrequencyHeader in t.headers && FrequencyColumn(t.headers) !in t.headers
    ensures FrequencyPanelAsWritten(t).Raised? ==>
              FrequencyPanelAsWritten(t) == Raised(KeyError(CountWord)) && |CountColumns(t.headers)| <= 1
    ensures !FrequencyPanelAsWritten(t).Raised? ==> FrequencyPanelAsWritten(t) == FrequencyPanel(t)
  {
    var counts := CountColumns(t.headers);
    if |counts| > 1 {
      assert counts[1] in counts;
    }
  }

  datatype AttendanceTab = AttendanceTab(purpose: Panel, frequency: Panel)

  // ---------------------------------------------------------------- restaurants tab

  /** Known restaurants sorted ascending by mentions, visited ones descending,
      the most frequent ones unsorted. */
  datatype RestaurantsTab = RestaurantsTab(known: Panel, visited: Panel, popular: Panel)

  // ---------------------------------------------------------------- price tab

  /** The first `n` names, as `names[:n]`. */
  function Leading(names: seq<string>, n: nat): (r: seq<string>)
    ensures |r| == if |names| < n then |names| else n
    ensures r == names[..|r|]
  {
    if |names| < n then names else names[..n]
  }

  /** A distribution chart of the first column of a role, over its non-empty
      cells; `missing` when the role has no column at all, and nothing when
      every cell of that column is empty. */
  function ValuePanel(t: Table, cols: seq<string>, missing: Panel): (r: Panel)
    requires WellFormed(t)
    requires forall i :: 0 <= i < |cols| ==> cols[i] in t.headers
    ensures cols == [] ==> r == missing
    ensures cols != [] ==> r.Hidden? || r.ValueChart?
    ensures cols != [] ==> (r.Hidden? <==> forall k :: 0 <= k < |t.rows| ==> Column(t, cols[0])[k].None?)
    ensures cols != [] && r.ValueChart? ==>
              r.column == cols[0] && Lift1(r.values) == Keep(Column(t, cols[0]), IsPresent)
  {
    if cols == [] then missing
    else
      var values := DropNulls(Column(t, cols[0]));
      DropNullsEmpty(Column(t, cols[0]));
      DropNullsKeepsPresentCells(Column(t, cols[0]));
      if values == [] then Hidden else ValueChart(cols[0], values)
  }

  datatype PriceTab =
    | PriceWarning(text: string)
    | PriceSection(listed: seq<string>, maximum: Panel, minimum: Panel, fair: Panel)

  /** The price tab: its section iff some header is a price header, naming the
      first three price columns in header order; the warning otherwise. */
  function PriceTabOf(t: Table): (r: PriceTab)
    requires WellFormed(t)
    ensures r.PriceWarning? <==> forall i :: 0 <= i < |t.headers| ==> !IsPriceHeader(t.headers[i])
    ensures r.PriceWarning? ==> r.text == PriceWarningText
    ensures r.PriceSection? ==> r.listed == Leading(PriceColumns(t.headers), 3) && 1 <= |r.listed| <= 3
    ensures r.PriceSection? ==>
              && r.maximum == ValuePanel(t, MaxPriceColumns(t.headers), Note(MaxPriceMissing))
              && r.minimum == ValuePanel(t, MinPriceColumns(t.headers), Note(MinPriceMissing))
              && r.fair == ValuePanel(t, FairPriceColumns(t.headers), Hidden)
  {
    var hs := t.headers;
    var priceCols := PriceColumns(hs);
    KeepEmpty(hs, IsPriceHeader);
    if priceCols == [] then PriceWarning(PriceWarningText)
    else
      PriceSection(
        Leading(priceCols, 3),
        ValuePanel(t, MaxPriceColumns(hs), Note(MaxPriceMissing)),
        ValuePanel(t, MinPriceColumns(hs), Note(MinPriceMissing)),
        ValuePanel(t, FairPriceColumns(hs), Hidden))
  }

  /** What a distribution place shows, for a role `p` whose columns are `cols`:
      `missing` when no header has the role; otherwise a chart of the first
      header with the role, over its non-empty cells in row order, when that
      column has a cell, and nothing when every cell of it is empty. */
  lemma {:induction false} ValuePanelShows(t: Table, p: string -> bool, cols: seq<string>, missing: Panel)
    requires WellFormed(t)
    requires IsSelectionOf(cols, t.headers, p)
    requires missing.Hidden? || missing.Note?
    requires forall i :: 0 <= i < |cols| ==> cols[i] in t.headers
    ensures (forall i :: 0 <= i < |t.headers| ==> !p(t.headers[i])) <==> cols == []
    ensures cols == [] ==> ValuePanel(t, cols, missing) == missing
    ensures cols != [] ==> IsFirstMatch(t.headers, p, cols[0]) && !ValuePanel(t, cols, missing).Note?
    ensures cols != [] ==>
              (ValuePanel(t, cols, missing).ValueChart? <==> exists k :: 0 <= k < |t.rows| && Column(t, cols[0])[k].Some?)
    ensures ValuePanel(t, cols, missing).ValueChart? ==>
              && IsFirstMatch(t.headers, p, ValuePanel(t, cols, missing).column)
              && Lift1(ValuePanel(t, cols, missing).values) == Keep(Column(t, cols[0]), IsPresent)
              && ValuePanel(t, cols, missing).values != []
  {
    KeepIsSelection(t.headers, p);
    assert cols == Keep(t.headers, p);
    KeepEmpty(t.headers, p);
    if cols != [] {
      KeepFirst(t.headers, p);
    }
  }

  /** Max price: the "not found" note appears iff no header matches; the first
      matching column is charted iff it has a non-empty cell, and nothing is
      shown when all its cells are empty. */
  lemma MaxPricePanel(t: Table)
    requires WellFormed(t)
    ensures PriceTabOf(t).PriceSection? ==>
              (PriceTabOf(t).maximum == Note(MaxPriceMissing) <==>
                 forall i :: 0 <= i < |t.headers| ==> !IsMaxPriceHeader(t.headers[i]))
    ensures PriceTabOf(t).PriceSection? && MaxPriceColumns(t.headers) != [] ==>
              && (PriceTabOf(t).maximum.Hidden? <==>
                    forall k :: 0 <= k < |t.rows| ==> Column(t, MaxPriceColumns(t.headers)[0])[k].None?)
              && (PriceTabOf(t).maximum.ValueChart? <==>
                    exists k :: 0 <= k < |t.rows| && Column(t, MaxPriceColumns(t.headers)[0])[k].Some?)
    ensures PriceTabOf(t).PriceSection? && PriceTabOf(t).maximum.ValueChart? ==>
              && IsFirstMatch(t.headers, IsMaxPriceHeader, PriceTabOf(t).maximum.column)
              && Lift1(PriceTabOf(t).maximum.values) == Keep(Column(t, MaxPriceColumns(t.headers)[0]), IsPresent)
  {
    if PriceTabOf(t).PriceSection? {
      ValuePanelShows(t, IsMaxPriceHeader, MaxPriceColumns(t.headers), Note(MaxPriceMissing));
    }
  }

  /** Min price: as for the max price, with its own note. */
  lemma MinPricePanel(t: Table)
    requires WellFormed(t)
    ensures PriceTabOf(t).PriceSection? ==>
              (PriceTabOf(t).minimum == Note(MinPriceMissing) <==>
                 forall i :: 0 <= i < |t.headers| ==> !IsMinPriceHeader(t.headers[i]))
    ensures PriceTabOf(t).PriceSection? && MinPriceColumns(t.headers) != [] ==>
              && (PriceTabOf(t).minimum.Hidden? <==>
                    forall k :: 0 <= k < |t.rows| ==> Column(t, MinPriceColumns(t.headers)[0])[k].None?)
              && (PriceTabOf(t).minimum.ValueChart? <==>
                    exists k :: 0 <= k < |t.rows| && Column(t, MinPriceColumns(t.headers)[0])[k].Some?)
    ensures PriceTabOf(t).PriceSection? && PriceTabOf(t).minimum.ValueChart? ==>
              && IsFirstMatch(t.headers, IsMinPriceHeader, PriceTabOf(t).minimum.column)
              && Lift1(PriceTabOf(t).minimum.values) == Keep(Column(t, MinPriceColumns(t.headers)[0]), IsPresent)
  {
    if PriceTabOf(t).PriceSection? {
      ValuePanelShows(t, IsMinPriceHeader, MinPriceColumns(t.headers), Note(MinPriceMissing));
    }
  }

  /** Fair price: never a note; nothing without a fair-price column; the first
      fair-price column is charted iff it has a non-empty cell, and nothing is
      shown when all its cells are empty. */
  lemma FairPricePanel(t: Table)
    requires WellFormed(t)
    ensures PriceTabOf(t).PriceSection? ==> PriceTabOf(t).fair.Hidden? || PriceTabOf(t).fair.ValueChart?
    ensures PriceTabOf(t).PriceSection? && (forall i :: 0 <= i < |t.headers| ==> !IsFairPriceHeader(t.headers[i])) ==>
              PriceTabOf(t).fair.Hidden?
    ensures PriceTabOf(t).PriceSection? && FairPriceColumns(t.headers) != [] ==>
              && (PriceTabOf(t).fair.Hidden? <==>
                    forall k :: 0 <= k < |t.rows| ==> Column(t, FairPriceColumns(t.headers)[0])[k].None?)
              && (PriceTabOf(t).fair.ValueChart? <==>
                    exists k :: 0 <= k < |t.rows| && Column(t, FairPriceColumns(t.headers)[0])[k].Some?)
    ensures PriceTabOf(t).PriceSection? && PriceTabOf(t).fair.ValueChart? ==>
              && IsFirstMatch(t.headers, IsFairPriceHeader, PriceTabOf(t).fair.column)
              && Lift1(PriceTabOf(t).fair.values) == Keep(Column(t, FairPriceColumns(t.headers)[0]), IsPresent)
  {
    if PriceTabOf(t).PriceSection? {
      ValuePanelShows(t, IsFairPriceHeader, FairPriceColumns(t.headers), Hidden);
    }
  }

  // ---------------------------------------------------------------- satisfaction tab

  datatype SatisfactionTab =
    | SatisfactionWarning(text: string)
    | SatisfactionSection(listed: seq<string>, general: Panel, characteristics: Panel, importance: Panel)

  /** The general-satisfaction place. The note appears iff there is no
      general-satisfaction column or no `кол-во` column at all; with both but
      no `кол-во.4` column nothing is shown; otherwise the first
      general-satisfaction column is charted against the first `кол-во.4`
      column over the rows that have both. Since a `кол-во.4` column is a
      `кол-во` column, the note never hides such a chart. */
  function GeneralPanel(t: Table): (r: Panel)
    requires WellFormed(t)
    ensures r.Note? || r.Hidden? || r.PairChart?
    ensures r == Note(GeneralSatisfactionMissing) <==>
              (forall i :: 0 <= i < |t.headers| ==> !IsGeneralSatisfactionHeader(t.headers[i])) || !HasCountHeader(t.headers)
    ensures ((exists i :: 0 <= i < |t.headers| && IsGeneralSatisfactionHeader(t.headers[i])) &&
             HasCountHeader(t.headers) &&
             (forall i :: 0 <= i < |t.headers| ==> !IsSatisfactionCountHeader(t.headers[i])))
            ==> r.Hidden?
    ensures GeneralSatisfactionColumns(t.headers) != [] && SatisfactionCountColumns(t.headers) != [] ==>
              (r.PairChart? <==>
                 HasCompleteRow(t, GeneralSatisfactionColumns(t.headers)[0], SatisfactionCountColumns(t.headers)[0]))
    ensures r.PairChart? ==>
              && IsFirstMatch(t.headers, IsGeneralSatisfactionHeader, r.category)
              && IsFirstMatch(t.headers, IsSatisfactionCountHeader, r.measure)
              && r.category in t.headers && r.measure in t.headers
              && r.rows == Selection(t, r.category, r.measure)
  {
    var hs := t.headers;
    var general := GeneralSatisfactionColumns(hs);
    var counts := SatisfactionCountColumns(hs);
    KeepEmpty(hs, IsGeneralSatisfactionHeader);
    KeepEmpty(hs, IsSatisfactionCountHeader);
    assert counts != [] ==> IsCountHeader(counts[0]) by {
      if counts != [] { SatisfactionCountIsCount(counts[0]); }
    }
    if general != [] && HasCountHeader(hs) then
      if counts == [] then Hidden
      else
        KeepFirst(hs, IsGeneralSatisfactionHeader);
        KeepFirst(hs, IsSatisfactionCountHeader);
        PairPanel(t, general[0], counts[0])
    else Note(GeneralSatisfactionMissing)
  }

  /** The characteristics place: the note appears iff there is no
      characteristics column or no column named `балл`; otherwise the first
      characteristics column is charted against `балл` over the rows that have both. */
  function CharacteristicsPanel(t: Table): (r: Panel)
    requires WellFormed(t)
    ensures r.Note? || r.Hidden? || r.PairChart?
    ensures r == Note(CharacteristicsMissing) <==>
              (forall i :: 0 <= i < |t.headers| ==> !IsCharacteristicsHeader(t.headers[i])) || ScoreHeader !in t.headers
    ensures CharacteristicsColumns(t.headers) != [] && ScoreHeader in t.headers ==>
              (r.PairChart? <==> HasCompleteRow(t, CharacteristicsColumns(t.headers)[0], ScoreHeader))
    ensures r.PairChart? ==>
              && IsFirstMatch(t.headers, IsCharacteristicsHeader, r.category) && r.measure == ScoreHeader
              && r.category in t.headers && r.rows == Selection(t, r.category, ScoreHeader)
  {
    var chars := CharacteristicsColumns(t.headers);
    KeepEmpty(t.headers, IsCharacteristicsHeader);
    if chars != [] && ScoreHeader in t.headers then
      KeepFirst(t.headers, IsCharacteristicsHeader);
      PairPanel(t, chars[0], ScoreHeader)
    else Note(CharacteristicsMissing)
  }

  /** The importance place never shows a note: the first importance column is
      charted against `%` over the rows that have both, when both exist. */
  function ImportancePanel(t: Table): (r: Panel)
    requires WellFormed(t)
    ensures r.Hidden? || r.PairChart?
    ensures (forall i :: 0 <= i < |t.headers| ==> !IsImportanceHeader(t.headers[i])) || ShareHeader !in t.headers ==>
              r.Hidden?
    ensures ImportanceColumns(t.headers) != [] && ShareHeader in t.headers ==>
              (r.PairChart? <==> HasCompleteRow(t, ImportanceColumns(t.headers)[0], ShareHeader))
    ensures r.PairChart? ==>
              && IsFirstMatch(t.headers, IsImportanceHeader, r.category) && r.measure == ShareHeader
              && r.category in t.headers && r.rows == Selection(t, r.category, ShareHeader)
  {
    var imp := ImportanceColumns(t.headers);
    KeepEmpty(t.headers, IsImportanceHeader);
    if imp != [] && ShareHeader in t.headers then
      KeepFirst(t.headers, IsImportanceHeader);
      PairPanel(t, imp[0], ShareHeader)
    else Hidden
  }

  /** The satisfaction tab: its section iff some header is a satisfaction
      header, naming the first three satisfaction columns; a sheet that has
      the general-satisfaction question always gets the section. */
  function SatisfactionTabOf(t: Table): (r: SatisfactionTab)
    requires WellFormed(t)
    ensures r.SatisfactionWarning? <==> forall i :: 0 <= i < |t.headers| ==> !IsSatisfactionHeader(t.headers[i])
    ensures r.SatisfactionWarning? ==> r.text == SatisfactionWarningText
    ensures r.SatisfactionSection? ==>
              && r.listed == Leading(SatisfactionColumns(t.headers), 3) && 1 <= |r.listed| <= 3
              && r.general == GeneralPanel(t) && r.characteristics == CharacteristicsPanel(t)
              && r.importance == ImportancePanel(t)
    ensures (exists i :: 0 <= i < |t.headers| && IsGeneralSatisfactionHeader(t.headers[i])) ==> r.SatisfactionSection?
  {
    var cols := SatisfactionColumns(t.headers);
    KeepEmpty(t.headers, IsSatisfactionHeader);
    if i :| 0 <= i < |t.headers| && IsGeneralSatisfactionHeader(t.headers[i]) then
      GeneralSatisfactionIsSatisfaction(t.headers[i]);
      SatisfactionSection(Leading(cols, 3), GeneralPanel(t), CharacteristicsPanel(t), ImportancePanel(t))
    else if cols == [] then SatisfactionWarning(SatisfactionWarningText)
    else SatisfactionSection(Leading(cols, 3), GeneralPanel(t), CharacteristicsPanel(t), ImportancePanel(t))
  }

  // ---------------------------------------------------------------- the page

  datatype Page = Page(attendance: AttendanceTab, restaurants: RestaurantsTab, price: PriceTab, satisfaction: SatisfactionTab)

  /** What `main` leaves on the screen: the whole page, or the charts drawn
      before the exception that ended it. */
  datatype Outcome = Rendered(page: Page) | Aborted(failure: Failure, shown: seq<Panel>)

  /** Draws the panels in order until one raises: the panels drawn before it,
      and the exception, if any. */
  function DrawUntilRaised(ps: seq<Panel>): (r: (seq<Panel>, Option<Failure>))
    ensures r.1.None? <==> forall i :: 0 <= i < |ps| ==> !ps[i].Raised?
    ensures |r.0| <= |ps| && r.0 == ps[..|r.0|]
    ensures r.1.None? ==> r.0 == ps
    ensures r.1.Some? ==> |r.0| < |ps| && ps[|r.0|] == Raised(r.1.value)
    ensures forall i :: 0 <= i < |r.0| ==> !r.0[i].Raised?
  {
    if ps == [] then ([], None)
    else if ps[0].Raised? then ([], Some(ps[0].failure))
    else
      var rest := DrawUntilRaised(ps[1..]);
      assert forall i :: 1 <= i < |ps| ==> ps[i] == ps[1..][i - 1];
      ([ps[0]] + rest.0, rest.1)
  }

  /** A page whose first tabs draw `charts` (purpose, visit frequency, known,
      visited, most frequent) in this order, followed by the price and
      satisfaction tabs. It ends at the first chart that raises, showing
      exactly the charts before it and neither later tab; with no exception
      it shows every tab. */
  function Draw(charts: seq<Panel>, price: PriceTab, satisfaction: SatisfactionTab): (o: Outcome)
    requires |charts| == 5
    ensures o.Aborted? <==> exists i :: 0 <= i < |charts| && charts[i].Raised?
    ensures o.Aborted? ==>
              exists i :: 0 <= i < |charts| && charts[i] == Raised(o.failure) && o.shown == charts[..i] &&
                forall j :: 0 <= j < i ==> !charts[j].Raised?
    ensures o.Rendered? ==>
              o.page == Page(AttendanceTab(charts[0], charts[1]), RestaurantsTab(charts[2], charts[3], charts[4]),
                             price, satisfaction)
  {
    var drawn := DrawUntilRaised(charts);
    match drawn.1
      case Some(f) =>
        assert charts[|drawn.0|] == Raised(f);
        Aborted(f, drawn.0)
      case None =>
        Rendered(Page(AttendanceTab(charts[0], charts[1]), RestaurantsTab(charts[2], charts[3], charts[4]),
                      price, satisfaction))
  }

  /** When only the known-restaurants and visited-restaurants charts can
      raise, and only `TypeError`, the page ends iff one of them does, with
      that error, and only after both attendance charts. */
  lemma {:induction false} DrawStopsInRestaurants(purpose: Panel, frequency: Panel, known: Panel, visited: Panel, popular: Panel,
                                                  price: PriceTab, satisfaction: SatisfactionTab)
    requires !purpose.Raised? && !frequency.Raised? && !popular.Raised?
    requires known.Raised? ==> known == Raised(TypeError)
    requires visited.Raised? ==> visited == Raised(TypeError)
    ensures var o := Draw([purpose, frequency, known, visited, popular], price, satisfaction);
            && (o.Aborted? <==> known.Raised? || visited.Raised?)
            && (o.Aborted? ==>
                  o.failure == TypeError &&
                  o.shown == [purpose, frequency] + (if known.Raised? then [] else [known]))
            && (o.Rendered? ==>
                  o.page == Page(AttendanceTab(purpose, frequency), RestaurantsTab(known, visited, popular), price, satisfaction))
  {
    var cs := [purpose, frequency, known, visited, popular];
    var o := Draw(cs, price, satisfaction);
    if o.Aborted? {
      var i :| 0 <= i < |cs| && cs[i] == Raised(o.failure) && o.shown == cs[..i];
      assert i == 2 || i == 3;
      assert cs[..2] == [purpose, frequency];
      assert cs[..3] == [purpose, frequency, known];
    }
  }

  /** The page with a visit-frequency chart that does not raise. Only a text
      count in the known-restaurants or visited-restaurants chart can end it;
      the attendance tab is then still shown in full, followed by the
      known-restaurants chart when it was the visited one that raised. */
  function PageWith(t: Table, frequency: Panel): (o: Outcome)
    requires WellFormed(t) && !frequency.Raised?
    ensures o.Aborted? <==>
              RankedPanel(t, KnownHeader, KnownCount, true).Raised? ||
              RankedPanel(t, VisitedHeader, VisitedCount, false).Raised?
    ensures o.Aborted? ==>
              o.failure == TypeError &&
              o.shown == [PairPanel(t, PurposeHeader, PurposeCount), frequency] +
                         (if RankedPanel(t, KnownHeader, KnownCount, true).Raised? then []
                          else [RankedPanel(t, KnownHeader, KnownCount, true)])
    ensures o.Rendered? ==>
              o.page == Page(AttendanceTab(PairPanel(t, PurposeHeader, PurposeCount), frequency),
                             RestaurantsTab(RankedPanel(t, KnownHeader, KnownCount, true),
                                            RankedPanel(t, VisitedHeader, VisitedCount, false),
                                            PairPanel(t, PopularHeader, PopularCount)),
                             PriceTabOf(t), SatisfactionTabOf(t))
  {
    var purpose, popular := PairPanel(t, PurposeHeader, PurposeCount), PairPanel(t, PopularHeader, PopularCount);
    var known, visited := RankedPanel(t, KnownHeader, KnownCount, true), RankedPanel(t, VisitedHeader, VisitedCount, false);
    var price, satisfaction := PriceTabOf(t), SatisfactionTabOf(t);
    DrawStopsInRestaurants(purpose, frequency, known, visited, popular, price, satisfaction);
    Draw([purpose, frequency, known, visited, popular], price, satisfaction)
  }

  /** The page with the corrected visit-frequency chart: it ends only at a
      text count, after the attendance tab. */
  function PageOf(t: Table): (o: Outcome)
    requires WellFormed(t)
    ensures o.Aborted? <==>
              RankedPanel(t, KnownHeader, KnownCount, true).Raised? ||
              RankedPanel(t, VisitedHeader, VisitedCount, false).Raised?
    ensures o.Aborted? ==>
              o.failure == TypeError &&
              o.shown == [PairPanel(t, PurposeHeader, PurposeCount), FrequencyPanel(t)] +
                         (if RankedPanel(t, KnownHeader, KnownCount, true).Raised? then []
                          else [RankedPanel(t, KnownHeader, KnownCount, true)])
    ensures o.Rendered? ==>
              o.page == Page(AttendanceTab(PairPanel(t, PurposeHeader, PurposeCount), FrequencyPanel(t)),
                             RestaurantsTab(RankedPanel(t, KnownHeader, KnownCount, true),
                                            RankedPanel(t, VisitedHeader, VisitedCount, false),
                                            PairPanel(t, PopularHeader, PopularCount)),
                             PriceTabOf(t), SatisfactionTabOf(t))
  {
    PageWith(t, FrequencyPanel(t))
  }

  /** A visit-frequency chart that raises ends the page right after the
      purpose chart, with its exception. */
  lemma DrawStopsAtFrequency(purpose: Panel, frequency: Panel, known: Panel, visited: Panel, popular: Panel,
                             price: PriceTab, satisfaction: SatisfactionTab)
    requires !purpose.Raised? && frequency.Raised?
    ensures Draw([purpose, frequency, known, visited, popular], price, satisfaction) == Aborted(frequency.failure, [purpose])
  {
    var cs := [purpose, frequency, known, visited, popular];
    var o := Draw(cs, price, satisfaction);
    assert cs[0] == purpose && cs[1] == frequency && cs[1].Raised?;
    var i :| 0 <= i < |cs| && cs[i] == Raised(o.failure) && o.shown == cs[..i] && forall j :: 0 <= j < i ==> !cs[j].Raised?;
    assert i == 1 by {
      assert i != 0;
    }
    assert cs[..1] == [purpose];
  }

  /** The page as the source draws it: when the visit-frequency chart raises,
      the page ends right after the purpose chart; otherwise it is the
      corrected page. */
  function PageAsWritten(t: Table): (o: Outcome)
    requires WellFormed(t)
    ensures FrequencyPanelAsWritten(t).Raised? ==>
              o == Aborted(KeyError(CountWord), [PairPanel(t, PurposeHeader, PurposeCount)])
    ensures !FrequencyPanelAsWritten(t).Raised? ==> o == PageOf(t)
  {
    FrequencyPanelAsWrittenRaises(t);
    var frequency := FrequencyPanelAsWritten(t);
    if frequency.Raised? then
      var purpose, popular := PairPanel(t, PurposeHeader, PurposeCount), PairPanel(t, PopularHeader, PopularCount);
      var known, visited := RankedPanel(t, KnownHeader, KnownCount, true), RankedPanel(t, VisitedHeader, VisitedCount, false);
      var price, satisfaction := PriceTabOf(t), SatisfactionTabOf(t);
      DrawStopsAtFrequency(purpose, frequency, known, visited, popular, price, satisfaction);
      Draw([purpose, frequency, known, visited, popular], price, satisfaction)
    else PageWith(t, frequency)
  }

  /** A sheet with the frequency question and a single, suffixed count column. */
  const KeyErrorSheet := Table([FrequencyHeader, KnownCount], [])

  /** On that sheet the frequency chart falls back to `кол-во`, which is not a header. */
  lemma KeyErrorSheetFallsBack()
    ensures WellFormed(KeyErrorSheet)
    ensures FrequencyColumn(KeyErrorSheet.headers) == CountWord && CountWord !in KeyErrorSheet.headers
  {
    var hs := KeyErrorSheet.headers;
    Text.MissingCharNotContained(FrequencyHeader, CountWord, 'л');
    assert KnownCount[..|CountWord|] == CountWord;
    Text.PrefixContained(KnownCount, CountWord);
    assert Keep(hs, IsCountHeader) == [KnownCount] by {
      assert hs[1..] == [KnownCount];
      assert hs[1..][1..] == [];
    }
  }

  /** So the source raises `KeyError` on the missing `кол-во`, and the
      corrected chart is simply not drawn. */
  lemma FrequencyKeyErrorExample()
    ensures WellFormed(KeyErrorSheet)
    ensures FrequencyPanelAsWritten(KeyErrorSheet) == Raised(KeyError(CountWord))
    ensures FrequencyPanel(KeyErrorSheet) == Hidden
  {
    KeyErrorSheetFallsBack();
  }

  /** On that sheet the page as written ends after the (empty) purpose chart,
      while the corrected page appears in full. */
  lemma FrequencyKeyErrorEndsPage()
    ensures WellFormed(KeyErrorSheet)
    ensures PageAsWritten(KeyErrorSheet) == Aborted(KeyError(CountWord), [Hidden])
    ensures PageOf(KeyErrorSheet).Rendered?
  {
    var t := KeyErrorSheet;
    FrequencyKeyErrorExample();
    assert PurposeHeader !in t.headers && KnownHeader !in t.headers && VisitedHeader !in t.headers;
    assert PairPanel(t, PurposeHeader, PurposeCount) == Hidden;
    assert RankedPanel(t, KnownHeader, KnownCount, true) == Hidden;
    assert RankedPanel(t, VisitedHeader, VisitedCount, false) == Hidden;
  }

  /** A sheet whose known-restaurants counts hold a text cell, and which has a
      price column. */
  const TextCountSheet := Table([KnownHeader, KnownCount, "цена"],
                                [[Some(Text("A")), Some(Num(1.0)), None], [Some(Text("B")), Some(Text("x")), None]])

  /** On that sheet, sorting the known-restaurants counts raises `TypeError`. */
  lemma TextCountRaises()
    ensures WellFormed(TextCountSheet)
    ensures RankedPanel(TextCountSheet, KnownHeader, KnownCount, true) == Raised(TypeError)
  {
    var t := TextCountSheet;
    var hs := t.headers;
    assert WellFormed(t);
    var pairs := Pairs(t, KnownHeader, KnownCount);
    assert pairs == [(Some(Text("A")), Some(Num(1.0))), (Some(Text("B")), Some(Text("x")))] by {
      assert hs[0] == KnownHeader && hs[1] == KnownCount;
    }
    assert DropNa(pairs) == [(Text("A"), Num(1.0)), (Text("B"), Text("x"))] by {
      assert pairs[1..] == [(Some(Text("B")), Some(Text("x")))];
      assert pairs[1..][1..] == [];
    }
    var rows := Selection(t, KnownHeader, KnownCount);
    assert rows == DropNa(pairs);
    assert rows[1].1.Text?;
    assert NumericCounts(rows).None?;
  }

  /** That sheet has a price section. */
  lemma TextCountSheetHasPrices()
    ensures WellFormed(TextCountSheet) && PriceTabOf(TextCountSheet).PriceSection?
  {
    var hs := TextCountSheet.headers;
    assert WellFormed(TextCountSheet);
    var w := PriceWords[0];
    assert Text.IsLowerCase(w) by {
      assert forall i :: 0 <= i < |w| ==> w[i] in "цена";
    }
    assert Text.Lower(hs[2]) == w;
    Text.PrefixContained(w, w);
    assert Text.Contains(Text.Lower(hs[2]), PriceWords[0]);
    assert IsPriceHeader(hs[2]);
  }

  /** That sheet has neither attendance question, so both attendance charts
      are empty, as written and corrected. */
  lemma TextCountSheetAttendanceEmpty()
    ensures WellFormed(TextCountSheet)
    ensures PairPanel(TextCountSheet, PurposeHeader, PurposeCount) == Hidden
    ensures FrequencyPanel(TextCountSheet) == Hidden && FrequencyPanelAsWritten(TextCountSheet) == Hidden
  {
    var t := TextCountSheet;
    assert WellFormed(t);
    assert PurposeHeader !in t.headers && FrequencyHeader !in t.headers;
  }

  /** On any sheet whose attendance charts are empty and whose known-restaurants
      counts hold text, the page ends after those two charts, as written and
      corrected alike. */
  lemma EmptyAttendanceThenTextCountEndsPage(t: Table)
    requires WellFormed(t)
    requires PairPanel(t, PurposeHeader, PurposeCount) == Hidden
    requires FrequencyPanel(t) == Hidden && FrequencyPanelAsWritten(t) == Hidden
    requires RankedPanel(t, KnownHeader, KnownCount, true) == Raised(TypeError)
    ensures PageOf(t) == Aborted(TypeError, [Hidden, Hidden])
    ensures PageAsWritten(t) == PageOf(t)
  {
  }

  /** So the page ends after the two (empty) attendance charts, both as
      written and corrected, and the price section the sheet has
      (TextCountSheetHasPrices) is never shown. */
  lemma TextCountEndsPageExample()
    ensures WellFormed(TextCountSheet)
    ensures PageOf(TextCountSheet) == Aborted(TypeError, [Hidden, Hidden])
    ensures PageAsWritten(TextCountSheet) == PageOf(TextCountSheet)
  {
    TextCountRaises();
    TextCountSheetAttendanceEmpty();
    EmptyAttendanceThenTextCountEndsPage(TextCountSheet);
  }
}
