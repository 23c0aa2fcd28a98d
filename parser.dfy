/**
 * The record parser (`extract_data_from_html`). The HTML library is not part
 * of this model: its input is the already-parsed first `<table>` of the
 * markup, given as the texts of its `<th>` cells and, when it has one, the
 * rows of its `<tbody>`.
 */
module Parser {
  import opened Options
  import opened Text

  /** One parsed row: header label to trimmed cell text. */
  type Record = map<string, string>

  /** One `<tr>` of the body: its whole text (`row.text`) and the texts of its `<td>` cells. */
  datatype Row = Row(text: string, cells: seq<string>)

  /** The first `<table>` in the markup: its `<th>` texts and, if it has a `<tbody>`, that body's rows. */
  datatype Table = Table(headerTexts: seq<string>, body: Option<seq<Row>>)

  /** The pair `(data, error)` the parser returns. */
  datatype Extraction = Extraction(records: seq<Record>, error: Option<string>)

  const NoTableMessage := "Tabela de resultados n\U{E3}o encontrada no HTML processado."
  const NoTbodyMessage := "tbody n\U{E3}o encontrado"
  const NoRowsMessage := "Nenhuma linha encontrada na tabela"

  /** The header labels, computed once per table: every `<th>` text, trimmed, in document order. */
  function Headers(t: Table): (h: seq<string>)
    ensures |h| == |t.headerTexts|
    ensures forall i :: 0 <= i < |h| ==> h[i] == Trim(t.headerTexts[i])
    ensures forall i :: 0 <= i < |h| ==> Trim(h[i]) == h[i]
  {
    var h := seq(|t.headerTexts|, i requires 0 <= i < |t.headerTexts| => Trim(t.headerTexts[i]));
    assert forall i :: 0 <= i < |h| ==> Trim(h[i]) == h[i] by {
      forall i | 0 <= i < |h| ensures Trim(h[i]) == h[i] {
        TrimIdempotent(t.headerTexts[i]);
      }
    }
    h
  }

  /** The test applied to the trimmed text of a lone body row. */
  predicate IsNoDataRow(text: string)
  {
    Contains(Lower(text), NoRecordsProbe) || text == ""
  }

  /**
   * The substring half of the test can never fire, because it looks for a
   * capitalised phrase in lowercased text: only the empty text is a sentinel.
   */
  lemma NoDataRowIsBlank(text: string)
    ensures IsNoDataRow(text) <==> text == ""
  {
    LowerNeverContainsCapitalised(text, NoRecordsProbe);
  }

  /** The record of a row whose cell count matches, filled in index order: `row_data[headers[i]] = cells[i].strip()`. */
  function RecordOf(headers: seq<string>, cells: seq<string>): (r: Record)
    requires |cells| == |headers|
    decreases |headers|
  {
    if |headers| == 0 then map[]
    else
      var n := |headers| - 1;
      RecordOf(headers[..n], cells[..n])[headers[n] := Trim(cells[n])]
  }

  /** Every header is a key of the record, and nothing else is. */
  lemma {:induction false} RecordKeys(headers: seq<string>, cells: seq<string>)
    requires |cells| == |headers|
    ensures forall k :: k in RecordOf(headers, cells) <==> k in headers
    decreases |headers|
  {
    if |headers| > 0 {
      var n := |headers| - 1;
      RecordKeys(headers[..n], cells[..n]);
      assert headers == headers[..n] + [headers[n]];
    }
  }

  /**
   * The value under a header is the trimmed cell at that header's last
   * position: with duplicate labels the later cell wins.
   */
  lemma {:induction false} RecordValue(headers: seq<string>, cells: seq<string>, i: nat)
    requires |cells| == |headers| && i < |headers|
    requires forall j :: i < j < |headers| ==> headers[j] != headers[i]
    ensures headers[i] in RecordOf(headers, cells)
    ensures RecordOf(headers, cells)[headers[i]] == Trim(cells[i])
    decreases |headers|
  {
    var n := |headers| - 1;
    var hs, cs := headers[..n], cells[..n];
    var prev := RecordOf(hs, cs);
    assert RecordOf(headers, cells) == prev[headers[n] := Trim(cells[n])];
    if i < n {
      assert hs[i] == headers[i] && cs[i] == cells[i];
      assert forall j :: i < j < |hs| ==> hs[j] == headers[j];
      RecordValue(hs, cs, i);
      assert headers[n] != headers[i];
      assert prev[headers[n] := Trim(cells[n])][headers[i]] == prev[headers[i]];
    } else {
      assert i == n;
    }
  }

  /** The records built from the rows whose cell count equals the header count, in row order. */
  function RowRecords(headers: seq<string>, rows: seq<Row>): (r: seq<Record>)
    ensures |r| <= |rows|
    decreases |rows|
  {
    if |rows| == 0 then []
    else
      var n := |rows| - 1;
      var last := rows[n];
      RowRecords(headers, rows[..n]) + (if |last.cells| == |headers| then [RecordOf(headers, last.cells)] else [])
  }

  /** Reference definition: the positions of the rows whose cell count equals the header count. */
  function MatchingRows(headers: seq<string>, rows: seq<Row>): (r: seq<nat>)
    ensures forall k :: 0 <= k < |r| ==> r[k] < |rows| && |rows[r[k]].cells| == |headers|
    ensures forall k, l :: 0 <= k < l < |r| ==> r[k] < r[l]
    ensures forall i :: 0 <= i < |rows| && |rows[i].cells| == |headers| ==> i in r
    decreases |rows|
  {
    if |rows| == 0 then []
    else
      var n := |rows| - 1;
      MatchingRows(headers, rows[..n]) + (if |rows[n].cells| == |headers| then [n] else [])
  }

  /**
   * The parsed records are exactly the matching rows, one record per row and
   * in the rows' order; every other row is skipped.
   */
  lemma {:induction false} RowRecordsAreMatchingRows(headers: seq<string>, rows: seq<Row>)
    ensures |RowRecords(headers, rows)| == |MatchingRows(headers, rows)|
    ensures forall k :: 0 <= k < |MatchingRows(headers, rows)| ==>
              RowRecords(headers, rows)[k] == RecordOf(headers, rows[MatchingRows(headers, rows)[k]].cells)
    decreases |rows|
  {
    if |rows| > 0 {
      var n := |rows| - 1;
      var prefix := rows[..n];
      RowRecordsAreMatchingRows(headers, prefix);
      var m := MatchingRows(headers, prefix);
      var recs := RowRecords(headers, prefix);
      var tail := if |rows[n].cells| == |headers| then [n] else [];
      assert MatchingRows(headers, rows) == m + tail;
      assert RowRecords(headers, rows) ==
        recs + (if |rows[n].cells| == |headers| then [RecordOf(headers, rows[n].cells)] else []);
      forall k | 0 <= k < |m|
        ensures RowRecords(headers, rows)[k] == RecordOf(headers, rows[(m + tail)[k]].cells)
      {
        assert prefix[m[k]] == rows[m[k]];
      }
    }
  }

  /** Every record has exactly the headers as keys: the header list is shared by all rows. */
  lemma RowRecordsKeys(headers: seq<string>, rows: seq<Row>, k: nat, x: string)
    requires k < |RowRecords(headers, rows)|
    ensures x in RowRecords(headers, rows)[k] <==> x in headers
  {
    RowRecordsAreMatchingRows(headers, rows);
    var m := MatchingRows(headers, rows);
    RecordKeys(headers, rows[m[k]].cells);
  }

  /** When every row's cell count matches, there is one record per row. */
  lemma {:induction false} RowRecordsAllMatch(headers: seq<string>, rows: seq<Row>)
    requires forall i :: 0 <= i < |rows| ==> |rows[i].cells| == |headers|
    ensures |RowRecords(headers, rows)| == |rows|
    decreases |rows|
  {
    if |rows| > 0 {
      var n := |rows| - 1;
      var prefix := rows[..n];
      assert forall i :: 0 <= i < n ==> prefix[i] == rows[i];
      RowRecordsAllMatch(headers, prefix);
      assert RowRecords(headers, rows) == RowRecords(headers, prefix) + [RecordOf(headers, rows[n].cells)];
    }
  }

  /** A mismatched row is skipped without aborting: when no row matches there are no records, and no error. */
  lemma {:induction false} RowRecordsNoneMatch(headers: seq<string>, rows: seq<Row>)
    requires forall i :: 0 <= i < |rows| ==> |rows[i].cells| != |headers|
    ensures RowRecords(headers, rows) == []
    decreases |rows|
  {
    if |rows| > 0 {
      var n := |rows| - 1;
      var prefix := rows[..n];
      assert forall i :: 0 <= i < n ==> prefix[i] == rows[i];
      RowRecordsNoneMatch(headers, prefix);
      assert RowRecords(headers, rows) == RowRecords(headers, prefix) + [];
    }
  }

  /** `extract_data_from_html` on the parsed table (`None` when the markup has no `<table>`). */
  function Extract(doc: Option<Table>): (r: Extraction)
    ensures r.error.Some? ==> r.records == []
  {
    match doc
    case None => Extraction([], Some(NoTableMessage))
    case Some(t) =>
      var headers := Headers(t);
      match t.body
      case None => Extraction([], Some(NoTbodyMessage))
      case Some(rows) =>
        if |rows| == 0 then Extraction([], Some(NoRowsMessage))
        else if |rows| == 1 && IsNoDataRow(Trim(rows[0].text)) then Extraction([], None)
        else Extraction(RowRecords(headers, rows), None)
  }

  /** The three failures, each with an empty record list, in the order the parser tests them. */
  lemma ExtractFailures(doc: Option<Table>)
    ensures Extract(doc).error == Some(NoTableMessage) <==> doc.None?
    ensures Extract(doc).error == Some(NoTbodyMessage) <==> doc.Some? && doc.value.body.None?
    ensures Extract(doc).error == Some(NoRowsMessage) <==> doc.Some? && doc.value.body == Some([])
    ensures Extract(doc).error.None? <==> doc.Some? && doc.value.body.Some? && doc.value.body.value != []
  {
    assert NoTableMessage != NoTbodyMessage && NoTableMessage != NoRowsMessage && NoTbodyMessage != NoRowsMessage;
  }

  /** A lone body row whose text is all whitespace is the "no data" sentinel: no records and no error. */
  lemma ExtractBlankSentinel(t: Table, row: Row)
    requires t.body == Some([row]) && AllSpace(row.text)
    ensures Extract(Some(t)) == Extraction([], None)
  {
  }

  /**
   * Any other body with rows parses without error into the records of the
   * matching rows; a lone "Nenhum registro encontrado" row included, since
   * the sentinel test reduces to blankness.
   */
  lemma ExtractParsesRows(t: Table, rows: seq<Row>)
    requires t.body == Some(rows) && rows != []
    requires !(|rows| == 1 && AllSpace(rows[0].text))
    ensures Extract(Some(t)) == Extraction(RowRecords(Headers(t), rows), None)
  {
    NoDataRowIsBlank(Trim(rows[0].text));
  }

  /** The portal's "Nenhum registro encontrado" row, alone in the body, is not the sentinel but a row like any other. */
  lemma NoRecordsRowIsParsed(t: Table, row: Row)
    requires t.body == Some([row]) && row.text == "Nenhum registro encontrado"
    ensures Extract(Some(t)) == Extraction(RowRecords(Headers(t), [row]), None)
    ensures |row.cells| == |Headers(t)| ==> Extract(Some(t)).records == [RecordOf(Headers(t), row.cells)]
  {
    assert !IsSpace(row.text[0]);
    ExtractParsesRows(t, [row]);
    assert [row][..0] == [];
  }

  /** Every parsed record has exactly the trimmed headers as keys, and there are no more records than rows. */
  lemma ExtractRecordShape(doc: Option<Table>)
    requires doc.Some?
    ensures |Extract(doc).records| <= (if doc.value.body.Some? then |doc.value.body.value| else 0)
    ensures forall k, x :: 0 <= k < |Extract(doc).records| ==>
              (x in Extract(doc).records[k] <==> x in Headers(doc.value))
  {
    if doc.value.body.Some? {
      forall k, x | 0 <= k < |Extract(doc).records|
        ensures x in Extract(doc).records[k] <==> x in Headers(doc.value)
      {
        RowRecordsKeys(Headers(doc.value), doc.value.body.value, k, x);
      }
    }
  }

  /** The inner loop of the parser: `row_data[headers[i]] = cell.text.strip()` for each cell in turn. */
  method FillRowData(headers: seq<string>, cells: seq<string>) returns (rowData: Record)
    requires |cells| == |headers|
    ensures rowData == RecordOf(headers, cells)
  {
    rowData := map[];
    var i := 0;
    while i < |cells|
      invariant 0 <= i <= |cells|
      invariant rowData == RecordOf(headers[..i], cells[..i])
    {
      ghost var h, c := headers[..i + 1], cells[..i + 1];
      assert h[..i] == headers[..i] && c[..i] == cells[..i];
      assert RecordOf(h, c) == RecordOf(h[..i], c[..i])[h[i] := Trim(c[i])];
      rowData := rowData[headers[i] := Trim(cells[i])];
      i := i + 1;
    }
    assert headers[..i] == headers && cells[..i] == cells;
  }

  /** The `for` loop over the rows: each row whose cell count matches is appended to `data`, the others are skipped. */
  method CollectRecords(headers: seq<string>, rows: seq<Row>) returns (data: seq<Record>)
    ensures data == RowRecords(headers, rows)
  {
    data := [];
    var idx := 0;
    while idx < |rows|
      invariant 0 <= idx <= |rows|
      invariant data == RowRecords(headers, rows[..idx])
    {
      ghost var done := rows[..idx + 1];
      assert done[..idx] == rows[..idx] && done[idx] == rows[idx];
      assert RowRecords(headers, done) == RowRecords(headers, done[..idx])
        + (if |done[idx].cells| == |headers| then [RecordOf(headers, done[idx].cells)] else []);
      var cells := rows[idx].cells;
      if |cells| == |headers| {
        var rowData := FillRowData(headers, cells);
        data := data + [rowData];
      }
      idx := idx + 1;
    }
    assert rows[..idx] == rows;
  }

  /** The method the source runs: the `data.append` loop over the rows and the cell-by-cell fill of `row_data`. */
  method ExtractDataFromHtml(doc: Option<Table>) returns (data: seq<Record>, error: Option<string>)
    ensures Extraction(data, error) == Extract(doc)
  {
    if doc.None? {
      return [], Some(NoTableMessage);
    }
    var table := doc.value;
    var headers := Headers(table);
    if table.body.None? {
      return [], Some(NoTbodyMessage);
    }
    var rows := table.body.value;
    if |rows| == 0 {
      return [], Some(NoRowsMessage);
    }
    if |rows| == 1 {
      var firstRowText := Trim(rows[0].text);
      if Contains(Lower(firstRowText), NoRecordsProbe) || firstRowText == "" {
        return [], None;
      }
    }
    data := CollectRecords(headers, rows);
    assert !(|rows| == 1 && IsNoDataRow(Trim(rows[0].text)));
    error := None;
  }
}
