/**
 * Picking the result table out of the portal's frame once the search has
 * run (`fetch_data_with_selenium`). Page load, the iframe lookup and the
 * form are not part of this model: they reach it only as the outcome of
 * the page, and each table of the frame is seen only through what the
 * loop reads of it.
 */
module Selection {
  import opened Options
  import opened Text

  /**
   * A `<table>` of the frame as the loop sees it: whether it has a `<tbody>`
   * (finding none raises), how many `<tr>` that body has, the text of the
   * first of them, and the table's `outerHTML`.
   */
  datatype DomTable = DomTable(hasTbody: bool, rowCount: nat, firstRowText: string, outerHtml: string)

  /** How the page stage ended: a wait timed out, some other step raised, or the frame's tables were read. */
  datatype PageOutcome = TimedOut | Raised(detail: string) | Loaded(tables: seq<DomTable>)

  /** The pair `(html, error)` the fetch returns. */
  datatype Fetched = Fetched(html: Option<string>, error: Option<string>)

  /** Where the scan over the tables stopped. */
  datatype Scan = Hit(index: nat) | NoTbody(index: nat) | Exhausted

  const NoRecordMessage := "Nenhum registro encontrado para o CPF informado."
  const TimeoutMessage := "A busca n\U{E3}o retornou resultados a tempo. Verifique o CPF ou tente novamente."
  const UnexpectedPrefix := "Erro inesperado durante a raspagem: "

  /** The driver's complaint when a table has no `<tbody>`; its exact wording is the driver's. */
  const NoTbodyDetail := "no such element: tbody"

  /** Every table from position `k` up to `i` has a body and no rows: the loop went past all of them. */
  ghost predicate PassedOver(tables: seq<DomTable>, k: nat, i: nat)
    requires k <= i <= |tables|
  {
    forall j :: k <= j < i ==> tables[j].hasTbody && tables[j].rowCount == 0
  }

  /** The loop from position `k` on, in index order, stopping at the first table it accepts or that raises. */
  function ScanFrom(tables: seq<DomTable>, k: nat): (r: Scan)
    requires k <= |tables|
    ensures r.Hit? ==> k <= r.index < |tables|
    ensures r.NoTbody? ==> k <= r.index < |tables|
    decreases |tables| - k
  {
    if k == |tables| then Exhausted
    else if !tables[k].hasTbody then NoTbody(k)
    else if tables[k].rowCount > 0 && !Contains(Lower(tables[k].firstRowText), NoRecordsProbe) then Hit(k)
    else ScanFrom(tables, k + 1)
  }

  /**
   * The scan stops at the first table with a row (the first-row test never
   * rejects, as it looks for a capitalised phrase in lowercased text), or at
   * the first table without a body, whichever comes first.
   */
  lemma {:induction false} ScanFromOutcome(tables: seq<DomTable>, k: nat)
    requires k <= |tables|
    ensures match ScanFrom(tables, k)
            case Hit(i) => PassedOver(tables, k, i) && tables[i].hasTbody && tables[i].rowCount > 0
            case NoTbody(i) => PassedOver(tables, k, i) && !tables[i].hasTbody
            case Exhausted => PassedOver(tables, k, |tables|)
    decreases |tables| - k
  {
    if k < |tables| {
      LowerNeverContainsCapitalised(tables[k].firstRowText, NoRecordsProbe);
      ScanFromOutcome(tables, k + 1);
    }
  }

  /** The table-selection outcome: its markup, or the reason there is none. */
  function SelectTable(tables: seq<DomTable>): (r: Fetched)
  {
    match ScanFrom(tables, 0)
    case Hit(i) =>
      if tables[i].outerHtml == "" then Fetched(None, Some(NoRecordMessage))
      else Fetched(Some(tables[i].outerHtml), None)
    case NoTbody(_) => Fetched(None, Some(UnexpectedPrefix + NoTbodyDetail))
    case Exhausted => Fetched(None, Some(NoRecordMessage))
  }

  /**
   * The markup returned is that of the first table (in index order) with at
   * least one body row, provided every table before it has a body; if no
   * table has a row, the result is the "no record" message.
   */
  lemma SelectTableFirstWithRows(tables: seq<DomTable>, i: nat)
    requires i < |tables| && PassedOver(tables, 0, i)
    requires tables[i].hasTbody && tables[i].rowCount > 0 && tables[i].outerHtml != ""
    ensures SelectTable(tables) == Fetched(Some(tables[i].outerHtml), None)
  {
    ScanFromOutcome(tables, 0);
  }

  lemma SelectTableNoRows(tables: seq<DomTable>)
    requires PassedOver(tables, 0, |tables|)
    ensures SelectTable(tables) == Fetched(None, Some(NoRecordMessage))
  {
    ScanFromOutcome(tables, 0);
  }

  /** A table without a body ahead of every table with rows makes the driver raise. */
  lemma SelectTableMissingTbody(tables: seq<DomTable>, i: nat)
    requires i < |tables| && PassedOver(tables, 0, i) && !tables[i].hasTbody
    ensures SelectTable(tables) == Fetched(None, Some(UnexpectedPrefix + NoTbodyDetail))
  {
    ScanFromOutcome(tables, 0);
  }

  /** Whatever the tables, exactly one of markup and message comes back, and neither is empty. */
  lemma SelectTableWellFormed(tables: seq<DomTable>)
    ensures SelectTable(tables).html.Some? != SelectTable(tables).error.Some?
    ensures SelectTable(tables).html.Some? ==> Truthy(SelectTable(tables).html)
    ensures SelectTable(tables).error.Some? ==> Truthy(SelectTable(tables).error)
    ensures SelectTable(tables).html.Some? ==>
              exists i :: 0 <= i < |tables| && SelectTable(tables).html.value == tables[i].outerHtml && tables[i].rowCount > 0
  {
    ScanFromOutcome(tables, 0);
  }

  /** The selection loop as the source writes it: scan in index order and `break` at the first table with rows. */
  method SelectResultTable(tables: seq<DomTable>) returns (html: Option<string>, error: Option<string>)
    ensures Fetched(html, error) == SelectTable(tables)
  {
    var resultTableHtml: Option<string> := None;
    var idx := 0;
    while idx < |tables|
      invariant 0 <= idx <= |tables|
      invariant ScanFrom(tables, idx) == ScanFrom(tables, 0)
      invariant resultTableHtml.None?
    {
      var table := tables[idx];
      if !table.hasTbody {
        return None, Some(UnexpectedPrefix + NoTbodyDetail);
      }
      if table.rowCount > 0 {
        var firstRowText := table.firstRowText;
        if !Contains(Lower(firstRowText), NoRecordsProbe) {
          resultTableHtml := Some(table.outerHtml);
          break;
        }
      }
      idx := idx + 1;
    }
    if resultTableHtml.None? || resultTableHtml.value == "" {
      return None, Some(NoRecordMessage);
    }
    return resultTableHtml, None;
  }

  /** The whole fetch as the endpoint sees it: `(html, None)` or `(None, message)`. */
  function Fetch(page: PageOutcome): (r: Fetched)
    ensures r.html.Some? != r.error.Some?
    ensures r.html.Some? ==> Truthy(r.html)
    ensures r.error.Some? ==> Truthy(r.error)
  {
    match page
    case TimedOut => Fetched(None, Some(TimeoutMessage))
    case Raised(detail) => Fetched(None, Some(UnexpectedPrefix + detail))
    case Loaded(tables) => SelectTableWellFormed(tables); SelectTable(tables)
  }
}
