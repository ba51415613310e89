/**
  Which spreadsheet headers play which role on the dashboard's price and
  satisfaction tabs, and which count column the visit-frequency chart uses.
  Every role is a test on one header; the columns of a role are the headers,
  in header order, that pass its test, and the dashboard charts only the first.
*/
module ColumnRoles {
  import opened Text
  import opened Subsequences

  // Keywords of the price tab (tested on the lower-cased header).
  const PriceWords: seq<string> := ["цена", "цены", "стоимость", "руб"]
  const PriceStem := "цен"
  const AboveWord := "выше"
  const BelowWord := "ниже"
  const FairWord := "справедлив"

  // Keywords of the satisfaction tab.
  const SatisfactionWords: seq<string> := ["удовлетвор", "оценк", "балл", "рейтинг"]
  /** Tested on the header as it is, case-sensitively. */
  const GeneralSatisfactionPhrase := "удовлетворены суши-рестораном"
  const CharacteristicsWord := "характеристик"
  const ImportanceWord := "важность"

  // Count columns, tested on the header as it is.
  const CountWord := "кол-во"
  const SatisfactionCountWord := "кол-во.4"

  /** `any(word in s for word in words)` */
  predicate ContainsAny(s: string, words: seq<string>)
  {
    exists i :: 0 <= i < |words| && Contains(s, words[i])
  }

  predicate IsPriceHeader(h: string) { ContainsAny(Lower(h), PriceWords) }
  predicate IsMaxPriceHeader(h: string) { Contains(Lower(h), AboveWord) && Contains(Lower(h), PriceStem) }
  predicate IsMinPriceHeader(h: string) { Contains(Lower(h), BelowWord) && Contains(Lower(h), PriceStem) }
  predicate IsFairPriceHeader(h: string) { Contains(Lower(h), FairWord) && Contains(Lower(h), PriceStem) }

  predicate IsSatisfactionHeader(h: string) { ContainsAny(Lower(h), SatisfactionWords) }
  predicate IsGeneralSatisfactionHeader(h: string) { Contains(h, GeneralSatisfactionPhrase) }
  predicate IsCharacteristicsHeader(h: string) { Contains(Lower(h), CharacteristicsWord) }
  predicate IsImportanceHeader(h: string) { Contains(Lower(h), ImportanceWord) }

  /** `'кол-во' in h`; pandas' `str.contains` reads the word as a regular
      expression, but it has no special characters, so this is a plain
      substring test. */
  predicate IsCountHeader(h: string) { Contains(h, CountWord) }
  predicate IsSatisfactionCountHeader(h: string) { Contains(h, SatisfactionCountWord) }

  /** `price_columns`: the headers whose lower-cased form contains a price word. */
  function PriceColumns(headers: seq<string>): (r: seq<string>)
    ensures IsSelectionOf(r, headers, IsPriceHeader)
    ensures forall i :: 0 <= i < |r| ==> r[i] in headers
  {
    KeepIsSelection(headers, IsPriceHeader);
    KeepElementsFromInput(headers, IsPriceHeader);
    Keep(headers, IsPriceHeader)
  }

  /** The loop that builds `price_columns` by appending each matching header. */
  method CollectPriceColumns(headers: seq<string>) returns (cols: seq<string>)
    ensures cols == PriceColumns(headers)
  {
    cols := [];
    for i := 0 to |headers|
      invariant cols == Keep(headers[..i], IsPriceHeader)
    {
      assert headers[..i + 1] == headers[..i] + [headers[i]];
      KeepAppend(headers[..i], [headers[i]], IsPriceHeader);
      if IsPriceHeader(headers[i]) {
        cols := cols + [headers[i]];
      }
    }
    assert headers[..|headers|] == headers;
  }

  /** `max_price_cols` */
  function MaxPriceColumns(headers: seq<string>): (r: seq<string>)
    ensures IsSelectionOf(r, headers, IsMaxPriceHeader)
    ensures forall i :: 0 <= i < |r| ==> r[i] in headers
  {
    KeepIsSelection(headers, IsMaxPriceHeader);
    KeepElementsFromInput(headers, IsMaxPriceHeader);
    Keep(headers, IsMaxPriceHeader)
  }

  /** `min_price_cols` */
  function MinPriceColumns(headers: seq<string>): (r: seq<string>)
    ensures IsSelectionOf(r, headers, IsMinPriceHeader)
    ensures forall i :: 0 <= i < |r| ==> r[i] in headers
  {
    KeepIsSelection(headers, IsMinPriceHeader);
    KeepElementsFromInput(headers, IsMinPriceHeader);
    Keep(headers, IsMinPriceHeader)
  }

  /** `fair_price_cols` */
  function FairPriceColumns(headers: seq<string>): (r: seq<string>)
    ensures IsSelectionOf(r, headers, IsFairPriceHeader)
    ensures forall i :: 0 <= i < |r| ==> r[i] in headers
  {
    KeepIsSelection(headers, IsFairPriceHeader);
    KeepElementsFromInput(headers, IsFairPriceHeader);
    Keep(headers, IsFairPriceHeader)
  }

  /** `satisfaction_columns`: the headers whose lower-cased form contains a satisfaction word. */
  function SatisfactionColumns(headers: seq<string>): (r: seq<string>)
    ensures IsSelectionOf(r, headers, IsSatisfactionHeader)
    ensures forall i :: 0 <= i < |r| ==> r[i] in headers
  {
    KeepIsSelection(headers, IsSatisfactionHeader);
    KeepElementsFromInput(headers, IsSatisfactionHeader);
    Keep(headers, IsSatisfactionHeader)
  }

  /** The loop that builds `satisfaction_columns` by appending each matching header. */
  method CollectSatisfactionColumns(headers: seq<string>) returns (cols: seq<string>)
    ensures cols == SatisfactionColumns(headers)
  {
    cols := [];
    for i := 0 to |headers|
      invariant cols == Keep(headers[..i], IsSatisfactionHeader)
    {
      assert headers[..i + 1] == headers[..i] + [headers[i]];
      KeepAppend(headers[..i], [headers[i]], IsSatisfactionHeader);
      if IsSatisfactionHeader(headers[i]) {
        cols := cols + [headers[i]];
      }
    }
    assert headers[..|headers|] == headers;
  }

  /** `general_satisfaction_cols` */
  function GeneralSatisfactionColumns(headers: seq<string>): (r: seq<string>)
    ensures IsSelectionOf(r, headers, IsGeneralSatisfactionHeader)
    ensures forall i :: 0 <= i < |r| ==> r[i] in headers
  {
    KeepIsSelection(headers, IsGeneralSatisfactionHeader);
    KeepElementsFromInput(headers, IsGeneralSatisfactionHeader);
    Keep(headers, IsGeneralSatisfactionHeader)
  }

  /** `characteristics_cols` */
  function CharacteristicsColumns(headers: seq<string>): (r: seq<string>)
    ensures IsSelectionOf(r, headers, IsCharacteristicsHeader)
    ensures forall i :: 0 <= i < |r| ==> r[i] in headers
  {
    KeepIsSelection(headers, IsCharacteristicsHeader);
    KeepElementsFromInput(headers, IsCharacteristicsHeader);
    Keep(headers, IsCharacteristicsHeader)
  }

  /** `importance_cols` */
  function ImportanceColumns(headers: seq<string>): (r: seq<string>)
    ensures IsSelectionOf(r, headers, IsImportanceHeader)
    ensures forall i :: 0 <= i < |r| ==> r[i] in headers
  {
    KeepIsSelection(headers, IsImportanceHeader);
    KeepElementsFromInput(headers, IsImportanceHeader);
    Keep(headers, IsImportanceHeader)
  }

  /** `count_col`: the headers containing `кол-во.4`. */
  function SatisfactionCountColumns(headers: seq<string>): (r: seq<string>)
    ensures IsSelectionOf(r, headers, IsSatisfactionCountHeader)
    ensures forall i :: 0 <= i < |r| ==> r[i] in headers
  {
    KeepIsSelection(headers, IsSatisfactionCountHeader);
    KeepElementsFromInput(headers, IsSatisfactionCountHeader);
    Keep(headers, IsSatisfactionCountHeader)
  }

  /** The headers containing `кол-во`, in header order. */
  function CountColumns(headers: seq<string>): (r: seq<string>)
    ensures IsSelectionOf(r, headers, IsCountHeader)
    ensures forall i :: 0 <= i < |r| ==> r[i] in headers
  {
    KeepIsSelection(headers, IsCountHeader);
    KeepElementsFromInput(headers, IsCountHeader);
    Keep(headers, IsCountHeader)
  }

  /** `any('кол-во' in col for col in df.columns)` */
  predicate HasCountHeader(headers: seq<string>)
    ensures HasCountHeader(headers) <==> CountColumns(headers) != []
  {
    KeepEmpty(headers, IsCountHeader);
    exists i :: 0 <= i < |headers| && IsCountHeader(headers[i])
  }

  /** The count column of the visit-frequency chart: the second header that
      contains `кол-во` when there are at least two, the literal `кол-во`
      otherwise. Either way the name contains `кол-во`. */
  function FrequencyColumn(headers: seq<string>): (r: string)
    ensures IsCountHeader(r)
    ensures |CountColumns(headers)| > 1 ==>
      exists j :: 0 <= j < |headers| && headers[j] == r && IsCountHeader(r) && |CountColumns(headers[..j])| == 1
    ensures |CountColumns(headers)| <= 1 ==> r == CountWord
  {
    var counts := CountColumns(headers);
    if |counts| > 1 then
      KeepIndex(headers, IsCountHeader, 1);
      counts[1]
    else
      PrefixContained(CountWord, CountWord);
      CountWord
  }

  /** Every keyword the dashboard compares with a lower-cased header is itself
      lower-case, so each of those tests is a case-insensitive one. */
  lemma KeywordsAreLowerCase()
    ensures forall i :: 0 <= i < |PriceWords| ==> IsLowerCase(PriceWords[i])
    ensures forall i :: 0 <= i < |SatisfactionWords| ==> IsLowerCase(SatisfactionWords[i])
    ensures IsLowerCase(PriceStem) && IsLowerCase(AboveWord) && IsLowerCase(BelowWord) && IsLowerCase(FairWord)
    ensures IsLowerCase(CharacteristicsWord) && IsLowerCase(ImportanceWord)
  {
  }

  /** A header that names the general-satisfaction question (matched
      case-sensitively) is also found among the satisfaction columns
      (matched on the lower-cased header), because the phrase begins with
      `удовлетвор`. */
  lemma {:induction false} GeneralSatisfactionIsSatisfaction(h: string)
    requires IsGeneralSatisfactionHeader(h)
    ensures IsSatisfactionHeader(h)
  {
    var w := SatisfactionWords[0];
    assert GeneralSatisfactionPhrase[..|w|] == w;
    PrefixContained(GeneralSatisfactionPhrase, w);
    ContainsTransitive(h, GeneralSatisfactionPhrase, w);
    KeywordsAreLowerCase();
    ContainsLowered(h, w);
  }

  /** A header containing `кол-во.4` contains `кол-во`. */
  lemma {:induction false} SatisfactionCountIsCount(h: string)
    requires IsSatisfactionCountHeader(h)
    ensures IsCountHeader(h)
  {
    assert SatisfactionCountWord[..|CountWord|] == CountWord;
    PrefixContained(SatisfactionCountWord, CountWord);
    ContainsTransitive(h, SatisfactionCountWord, CountWord);
  }
}
