# Personnel-contract scraper: the deterministic core

`selenium_scraper.py` is a small Flask service. Given a CPF (a Brazilian
taxpayer number), it drives a headless browser through the personnel-contract
search of the TCM-GO transparency portal. It then turns the result table into
records and answers with the first record whose contract type is an admission.
This project models the four pieces of that file that decide anything, and
proves properties of them:

- **CPF normalisation** (`Cpf`). This is `cpf.replace(".", "").replace("-", "")`.
  The two chained replaces equal a single pass that drops `.` and `-`. The pass
  keeps every other character, spaces included, in order, and it is idempotent.
- **Result-table selection** (`Selection`). This is the loop over the frame's
  tables that takes the `outerHTML` of the first table with a body row. The
  `<tbody>` lookup raises on a table without one, so a `<tbody>`-less table met
  before the result table makes the whole fetch fail with the unexpected-error
  message; a browser gives an empty or header-only table no `<tbody>`. The model
  also covers the messages the fetch returns on a timeout or another exception.
  The loop's test `"Nenhum registro" not in first_row_text.lower()` can never
  reject a table: a lowercased text holds no capital `N`. The model keeps that
  test as written and proves that it never rejects anything.
- **Record parser** (`Parser`). This is `extract_data_from_html`, run on the
  already-parsed first `<table>`: its `<th>` texts, plus the rows of its `<tbody>`
  if it has one. The parser has three failures, checked in this order: no table,
  no `<tbody>`, no rows. A lone blank row is the "no data" sentinel. The
  sentinel's substring half is dead for the same reason as above, so a lone
  "Nenhum registro encontrado" row is parsed like any other row. Rows whose cell
  count is not the header count are skipped. Every other row becomes a record
  keyed by the trimmed headers, by position; with duplicate labels the later one
  wins.
- **Admission filter and response decision** (`Endpoint`). The route's status
  and payload are a function of the stage outcomes:
  - 415: the body is not declared as JSON;
  - 400: the body does not parse as JSON (the framework's error page), or the
    `cpf` is missing or empty;
  - 500 (the framework's error page): the JSON is not an object, so `data.get`
    raises outside the route's `try`;
  - 503: the driver failed to start;
  - 500: the fetch failed, or the parse failed;
  - 404: the parse gave no records, or no admission record;
  - 200: the first record whose `Tipo de Contrato` is exactly `Admissao` or
    `Concursado`.

`Text` models the Python built-ins the code relies on: `str.strip()`,
`str.lower()` and the substring test `in`. `Options` holds `Option` and Python
truthiness for optional strings.

Some behaviours of the code that the model keeps as written:

- when every table has a `<tbody>` and none has a body row, the fetch returns
  the "no record" message as an error (selenium_scraper.py:100-102), which the
  route answers with 500 (:192-194);
- a `<tbody>` with no rows is a parse error (selenium_scraper.py:140-141),
  which the route answers with 500 (:201-202);
- a row whose cell count differs from the header count is dropped
  (:160-165);
- the "no data" sentinel is only a lone blank row, since the phrase test on
  the lowercased text never fires (:144-148);
- a body not declared as JSON gets 415 (:178-179).

## Model

| member | source | states |
|---|---|---|
| `Text.Trim` | selenium_scraper.py:127 | `strip()`: no whitespace at either end of the result; the result is empty exactly when the input is all whitespace |
| `Text.TrimIsFactor` | selenium_scraper.py:145 | the stripped text is a contiguous piece of the input, with only whitespace removed before and after it |
| `Text.TrimIdempotent` | selenium_scraper.py:127 | stripping twice equals stripping once, so the trimmed headers are fixed points of `strip()` |
| `Text.TrimStart` | selenium_scraper.py:145 | leading-whitespace removal leaves a suffix that starts with a non-space and drops only whitespace |
| `Text.TrimEnd` | selenium_scraper.py:145 | trailing-whitespace removal leaves a prefix that ends with a non-space and drops only whitespace |
| `Text.LowerChar` | selenium_scraper.py:94 | lowercasing one character never gives an ASCII capital; an ASCII or Latin-1 capital moves up by the case offset 32, and every other character is unchanged |
| `Text.Lower` | selenium_scraper.py:94 | `lower()` keeps the length, lowers each character by `LowerChar` in place, and leaves no ASCII capital in the text |
| `Text.ContainsHead` | selenium_scraper.py:147 | if a non-empty pattern occurs in a text, the pattern's first character is in that text |
| `Text.LowerNeverContainsCapitalised` | selenium_scraper.py:94 | a lowercased text never contains a pattern that starts with an ASCII capital, so the `"Nenhum registro"` tests are dead |
| `Cpf.RemoveChar` | selenium_scraper.py:60 | `replace(c, "")` never lengthens the string |
| `Cpf.RemoveCharMembership` | selenium_scraper.py:60 | a character survives `replace(c, "")` exactly when it is in the input and is not `c` |
| `Cpf.RemoveCharConcat` | selenium_scraper.py:60 | `replace(c, "")` of a concatenation is the concatenation of the replaced parts |
| `Cpf.NormalizeCpf` | selenium_scraper.py:60 | the cleaned CPF contains no `.` and no `-` |
| `Cpf.NormalizeIsSinglePass` | selenium_scraper.py:60 | the two chained replaces equal one left-to-right pass that drops `.` and `-` |
| `Cpf.NormalizeMembership` | selenium_scraper.py:60 | a character is in the cleaned CPF exactly when it is in the input and is neither `.` nor `-` |
| `Cpf.NormalizeConcat` | selenium_scraper.py:60 | order is preserved: cleaning a concatenation cleans each part in place |
| `Cpf.NormalizeSingle` | selenium_scraper.py:60 | one character is dropped if it is `.` or `-` and kept otherwise, a space included |
| `Cpf.NormalizeFixesClean` | selenium_scraper.py:60 | a string with no `.` or `-` comes back unchanged |
| `Cpf.KeepAllClean` | selenium_scraper.py:60 | the single-pass filter keeps, unchanged, a string that has no separator |
| `Cpf.NormalizeIdempotent` | selenium_scraper.py:60 | cleaning twice equals cleaning once |
| `Cpf.DropSeparator` | selenium_scraper.py:60 | a separator between two parts disappears and both parts are cleaned in place |
| `Cpf.NormalizeGroups` | selenium_scraper.py:60 | four separator-free groups joined by three separators clean to the groups run together |
| `Cpf.NormalizeFormattedExample` | selenium_scraper.py:60 | `"123.456.789-00"` becomes `"12345678900"` |
| `Cpf.NormalizeSpacedExample` | selenium_scraper.py:60 | `"111 222 333-44"` becomes `"111 222 33344"`: spaces are kept |
| `Parser.Headers` | selenium_scraper.py:127 | one header per `<th>`, in order: header `i` is the trimmed text of the `i`-th `<th>`, and each header is a fixed point of `strip()` |
| `Parser.NoDataRowIsBlank` | selenium_scraper.py:147 | the sentinel test holds exactly when the trimmed row text is empty |
| `Parser.RecordKeys` | selenium_scraper.py:159-162 | a record's keys are exactly the headers |
| `Parser.RecordValue` | selenium_scraper.py:160-162 | the value under a header is the trimmed cell at that header's last position: the later of two duplicate labels wins |
| `Parser.RowRecords` | selenium_scraper.py:150-165 | there are never more records than rows |
| `Parser.MatchingRows` | selenium_scraper.py:160 | the positions of the rows whose cell count equals the header count: strictly increasing, and containing every such row |
| `Parser.RowRecordsAreMatchingRows` | selenium_scraper.py:150-165 | the records are exactly one per matching row, in the rows' order, each built from that row's cells |
| `Parser.RowRecordsKeys` | selenium_scraper.py:127 | every record has the same key set, the trimmed headers computed once for the table |
| `Parser.RowRecordsAllMatch` | selenium_scraper.py:150-165 | when every row's cell count matches, there is exactly one record per row |
| `Parser.RowRecordsNoneMatch` | selenium_scraper.py:164-165 | when no row matches, the result is no records and not an abort |
| `Parser.Extract` | selenium_scraper.py:119-168 | an error always comes with an empty record list |
| `Parser.ExtractFailures` | selenium_scraper.py:122-141 | the three error messages come, in priority order, from: no table; no `<tbody>`; no rows; there is no error exactly when a body with rows exists |
| `Parser.ExtractBlankSentinel` | selenium_scraper.py:144-148 | a lone blank row gives no records and no error |
| `Parser.ExtractParsesRows` | selenium_scraper.py:143-168 | any other body with rows, a lone "Nenhum registro encontrado" row included, gives the records of the matching rows and no error |
| `Parser.NoRecordsRowIsParsed` | selenium_scraper.py:144-163 | a lone row reading "Nenhum registro encontrado" parses without error into the record of that row when its cell count matches the headers |
| `Parser.ExtractRecordShape` | selenium_scraper.py:150-165 | at most one record per row, and every record is keyed by exactly the headers |
| `Parser.FillRowData` | selenium_scraper.py:159-163 | the cell-by-cell loop builds the positional record of the row |
| `Parser.CollectRecords` | selenium_scraper.py:150-165 | the row loop appends exactly the records of the matching rows, in order |
| `Parser.ExtractDataFromHtml` | selenium_scraper.py:119-168 | the parser's loops compute exactly the parse defined by `Extract` |
| `Selection.ScanFrom` | selenium_scraper.py:85-98 | the index where the scan stops lies inside the table list |
| `Selection.ScanFromOutcome` | selenium_scraper.py:85-98 | the scan stops at the first table with a row, or raises at the first table without a body; every table before that point has a body and no rows; the first-row test never rejects |
| `Selection.SelectTableFirstWithRows` | selenium_scraper.py:85-105 | when every earlier table has a `<tbody>`, the markup returned is the `outerHTML` of the first table, in index order, that has a body row |
| `Selection.SelectTableNoRows` | selenium_scraper.py:100-102 | if every table has a `<tbody>` and none has a row, there is no markup and the message is "Nenhum registro encontrado para o CPF informado." |
| `Selection.SelectTableMissingTbody` | selenium_scraper.py:86 | a table without a body that comes before every table with rows makes the fetch fail with the unexpected-error message |
| `Selection.SelectTableWellFormed` | selenium_scraper.py:83-105 | exactly one of markup and message comes back; neither is empty; the markup is that of a table with rows |
| `Selection.SelectResultTable` | selenium_scraper.py:80-105 | the `for`/`break` loop returns exactly the selection outcome |
| `Selection.Fetch` | selenium_scraper.py:100-114 | on every page outcome (timeout, other exception, tables) the fetch returns exactly one of markup and message, neither empty |
| `Endpoint.AdmissionRecords` | selenium_scraper.py:205-206 | the filter keeps only admission records taken from the input; it is empty exactly when no record's `Tipo de Contrato` is `Admissao` or `Concursado` |
| `Endpoint.FirstAdmission` | selenium_scraper.py:206-211 | element `[0]` of the filter is the first admission record in parsed order |
| `Endpoint.Respond` | selenium_scraper.py:178-217 | the status is one of 200, 400, 404, 415, 500, 503, and it is 200 exactly when a record is returned |
| `Endpoint.RejectsBeforeDriver` | selenium_scraper.py:178-185 | a body not declared as JSON gives 415, an unparsable body or a missing or empty `cpf` gives 400, JSON that is not an object gives 500; the framework's error page comes exactly for the unparsable and non-object bodies; all of this whatever the later stages would have done |
| `Endpoint.UnavailableOnlyForDriver` | selenium_scraper.py:219-221 | the status is 503 exactly when the request was accepted and the driver failed to start |
| `Endpoint.ServerErrors` | selenium_scraper.py:192-202 | a fetch error gives 500 with that message; after markup came back, a parse error gives 500 with the prefixed message |
| `Endpoint.CleanRunOutcome` | selenium_scraper.py:204-217 | after a clean fetch and parse: no records gives 404; records with no admission give 404; otherwise the answer is the first admission record |
| `Endpoint.SuccessIsAdmission` | selenium_scraper.py:204-211 | a 200 answer comes from a clean run and is an admission record from the parsed list |
| `Endpoint.Serve` | selenium_scraper.py:190-202 | over the modelled fetch, the "no HTML content" 404 can never be produced |
| `Endpoint.ServeNoRowsTables` | selenium_scraper.py:192-194 | when every table has a `<tbody>` and none has a row, the fetch's "no record" error (:100-102) makes the route answer 500 with that message, whatever the parser would do |
| `Endpoint.ServeBlankTable` | selenium_scraper.py:144-148 | a result table whose only row is blank ends in the "no record" 404, not in an error |
| `Endpoint.OneAdmissionAmongThree` | selenium_scraper.py:204-211 | of three records where only the middle one is an admission, that record is the answer |

## Left out

- Browser session handling is not modelled. That covers `create_driver`'s
  options, `driver.quit` and `switch_to.default_content` (selenium_scraper.py:15-30,
  :115-116, :226-229). These are calls into a browser process. A start failure
  appears only as the `StartFailed` outcome, answered with 503.
- Page interaction is not modelled: `driver.get`, the sleeps, the
  `WebDriverWait` waits, the iframe lookup with its first-iframe fallback, and
  filling and clicking the form (selenium_scraper.py:39-77). This is
  timing-dependent work with a live third-party page. It reaches the model as a
  `PageOutcome`: a timeout, another exception with its text, or the tables that
  were read. The soft wait for `tbody` (:73-77) never changes an outcome, so it
  is not represented.
- HTML parsing is not modelled. BeautifulSoup's parsing, `find`/`find_all`
  and `.text` belong to a library. The parser takes the parsed first table
  instead, and `Endpoint.Serve` takes the markup-to-table step as a function
  parameter.
- Flask, CORS, JSON serialisation, and all `print` and `traceback` logging are
  not modelled; they are I/O. What the framework decides before the route's own
  checks is reduced to the request's shape: `Unparsable` stands for Flask's
  400 on a JSON body that does not parse (:181), and `NotObject` for its 500 on
  JSON that is not an object (:182). The text of Flask's error pages is not
  modelled; it is the single `ErrorPage` payload.
- `Text.Lower`: only ASCII and Latin-1 capitals are lowered. Every other
  capital (Latin Extended, Greek, Cyrillic, …) and Python's length-changing
  lowercasings (such as U+0130) are outside the model.
  No character lowercases to an ASCII capital in either case, so the dead-check
  result does not depend on this.
- `Endpoint.Respond`: a `cpf` that is a JSON value other than a string is not
  modelled. In the source, a truthy non-string passes the 400 check and then
  makes `replace` raise inside the fetch. That ends as a 500 with the
  unexpected-error message, which `PageOutcome.Raised` can stand for.
- `Endpoint.Respond`: some failures are not modelled because they come from
  code outside the model. These are the generic `except Exception` answer, 500
  "Erro interno no servidor" (:222-225), and a `RuntimeError` raised anywhere
  other than `create_driver` (which also gives 503).
- `Selection.SelectTable`: the driver's own text for a missing `<tbody>` is
  stood in for by a fixed detail string.
- Nothing ties the row count the selection loop sees to the rows the parser
  later finds in that markup. The two come from different libraries.
