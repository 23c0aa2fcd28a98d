/**
 * The `/api/buscar-registro-selenium` route (`buscar_registro_selenium`) as
 * a decision on the outcomes of its stages: whether the body is JSON, the
 * `cpf` field, whether the browser driver started, what the fetch returned
 * and what the parser returned. Flask, CORS and JSON encoding are not part
 * of this model.
 */
module Endpoint {
  import opened Options
  import opened Parser
  import opened Selection

  /**
   * The request body: not declared as JSON; declared as JSON but not
   * parsable; JSON that is not an object (`null`, a list, a string, a
   * number), on which `data.get` raises; or a JSON object whose `cpf` field
   * is absent/null or a string.
   */
  datatype Request = NotJson | Unparsable | NotObject | Json(cpf: Option<string>)

  /** Whether `create_driver` returned a driver or raised, with its complaint. */
  datatype DriverStart = Started | StartFailed(cause: string)

  /**
   * The body: `{"error": …}`, `{"message": …}`, the chosen record itself, or
   * the framework's own error page for an exception the route does not catch.
   */
  datatype Payload = Error(text: string) | Message(text: string) | Body(record: Record) | ErrorPage

  datatype Response = Response(status: nat, payload: Payload)

  const NotJsonMessage := "O corpo da requisi\U{E7}\U{E3}o deve ser JSON."
  const MissingCpfMessage := "O campo 'cpf' \U{E9} obrigat\U{F3}rio."
  const DriverFailurePrefix := "Falha ao iniciar o WebDriver: "
  const NoHtmlMessage := "Nenhum conte\U{FA}do HTML foi retornado da busca."
  const ExtractFailurePrefix := "Erro ao processar os dados: "
  const NoAdmissionMessage := "Nenhum registro de admiss\U{E3}o do tipo 'Admissao' ou 'Concursado' foi encontrado."

  const ContractTypeKey := "Tipo de Contrato"
  const AdmissionTypes := ["Admissao", "Concursado"]

  /** `item.get('Tipo de Contrato') in tipos_desejados`: a missing key gives `None`, which never matches. */
  predicate IsAdmission(r: Record)
  {
    ContractTypeKey in r && r[ContractTypeKey] in AdmissionTypes
  }

  /** The list comprehension keeping the admission records: a subsequence, empty exactly when none qualifies. */
  function AdmissionRecords(records: seq<Record>): (r: seq<Record>)
    ensures |r| <= |records|
    ensures forall k :: 0 <= k < |r| ==> IsAdmission(r[k]) && r[k] in records
    ensures r == [] <==> forall i :: 0 <= i < |records| ==> !IsAdmission(records[i])
  {
    if records == [] then []
    else
      var rest := AdmissionRecords(records[1..]);
      assert forall i :: 1 <= i < |records| ==> records[i] == records[1..][i - 1];
      (if IsAdmission(records[0]) then [records[0]] else []) + rest
  }

  /** `dados_filtrados[0]` is the first admission record in parsed order. */
  lemma {:induction false} FirstAdmission(records: seq<Record>, i: nat)
    requires i < |records| && IsAdmission(records[i])
    requires forall j :: 0 <= j < i ==> !IsAdmission(records[j])
    ensures AdmissionRecords(records) != [] && AdmissionRecords(records)[0] == records[i]
  {
    if i > 0 {
      FirstAdmission(records[1..], i - 1);
    }
  }

  /** Some record qualifies, and the first one in parsed order is at `i`. */
  ghost predicate FirstAdmissionAt(records: seq<Record>, i: nat)
  {
    i < |records| && IsAdmission(records[i]) && forall j :: 0 <= j < i ==> !IsAdmission(records[j])
  }

  /** The route's decisions, in the order it takes them. */
  function Respond(req: Request, driver: DriverStart, fetched: Fetched, extracted: Extraction): (r: Response)
    ensures r.status in {200, 400, 404, 415, 500, 503}
    ensures r.status == 200 <==> r.payload.Body?
  {
    match req
    case NotJson => Response(415, Error(NotJsonMessage))
    case Unparsable => Response(400, ErrorPage)
    case NotObject => Response(500, ErrorPage)
    case Json(cpf) =>
      if !Truthy(cpf) then Response(400, Error(MissingCpfMessage))
      else match driver
      case StartFailed(cause) => Response(503, Error(DriverFailurePrefix + cause))
      case Started =>
        if Truthy(fetched.error) then Response(500, Error(fetched.error.value))
        else if !Truthy(fetched.html) then Response(404, Message(NoHtmlMessage))
        else if Truthy(extracted.error) then Response(500, Error(ExtractFailurePrefix + extracted.error.value))
        else if extracted.records != [] then
          var admissions := AdmissionRecords(extracted.records);
          if admissions != [] then Response(200, Body(admissions[0]))
          else Response(404, Message(NoAdmissionMessage))
        else Response(404, Message(NoRecordMessage))
  }

  /** The body has been accepted: it is JSON with a non-empty `cpf`. */
  predicate Accepted(req: Request)
  {
    req.Json? && Truthy(req.cpf)
  }

  /**
   * A body not declared as JSON gets 415, one that does not parse or a
   * missing or empty `cpf` gets 400, and JSON that is not an object gets the
   * framework's 500, whatever the later stages would have done: all are
   * answered before any driver exists.
   */
  lemma RejectsBeforeDriver(req: Request, d1: DriverStart, f1: Fetched, e1: Extraction,
                            d2: DriverStart, f2: Fetched, e2: Extraction)
    requires !Accepted(req)
    ensures Respond(req, d1, f1, e1) == Respond(req, d2, f2, e2)
    ensures Respond(req, d1, f1, e1).status == (if req.NotJson? then 415 else if req.NotObject? then 500 else 400)
    ensures Respond(req, d1, f1, e1).payload.ErrorPage? <==> req.Unparsable? || req.NotObject?
  {
  }

  /** Only a driver that failed to start gives 503, and then nothing after it matters. */
  lemma UnavailableOnlyForDriver(req: Request, driver: DriverStart, fetched: Fetched, extracted: Extraction)
    ensures Respond(req, driver, fetched, extracted).status == 503 <==> Accepted(req) && driver.StartFailed?
  {
  }

  /** A fetch error, or a parse error after markup came back, gives 500 carrying that message. */
  lemma ServerErrors(req: Request, fetched: Fetched, extracted: Extraction)
    requires Accepted(req)
    ensures Truthy(fetched.error) ==>
              Respond(req, Started, fetched, extracted) == Response(500, Error(fetched.error.value))
    ensures !Truthy(fetched.error) && Truthy(fetched.html) && Truthy(extracted.error) ==>
              Respond(req, Started, fetched, extracted)
                == Response(500, Error(ExtractFailurePrefix + extracted.error.value))
  {
  }

  /** Under a started driver and a clean fetch and parse: the stage after which nothing went wrong. */
  predicate CleanRun(req: Request, driver: DriverStart, fetched: Fetched, extracted: Extraction)
  {
    Accepted(req) && driver.Started? && !Truthy(fetched.error) && Truthy(fetched.html) && !Truthy(extracted.error)
  }

  /**
   * On a clean run, an empty record list gives the "no record" 404, a
   * non-empty one without admission records the "no admission" 404, and
   * otherwise the answer is the first admission record in parsed order.
   */
  lemma CleanRunOutcome(req: Request, driver: DriverStart, fetched: Fetched, extracted: Extraction)
    requires CleanRun(req, driver, fetched, extracted)
    ensures extracted.records == [] ==>
              Respond(req, driver, fetched, extracted) == Response(404, Message(NoRecordMessage))
    ensures extracted.records != [] && (forall i :: 0 <= i < |extracted.records| ==> !IsAdmission(extracted.records[i])) ==>
              Respond(req, driver, fetched, extracted) == Response(404, Message(NoAdmissionMessage))
    ensures forall i: nat :: FirstAdmissionAt(extracted.records, i) ==>
              Respond(req, driver, fetched, extracted) == Response(200, Body(extracted.records[i]))
  {
    forall i: nat | FirstAdmissionAt(extracted.records, i)
      ensures Respond(req, driver, fetched, extracted) == Response(200, Body(extracted.records[i]))
    {
      FirstAdmission(extracted.records, i);
    }
  }

  /** A 200 answer is always an admission record taken from the parsed records. */
  lemma SuccessIsAdmission(req: Request, driver: DriverStart, fetched: Fetched, extracted: Extraction)
    requires Respond(req, driver, fetched, extracted).status == 200
    ensures CleanRun(req, driver, fetched, extracted)
    ensures IsAdmission(Respond(req, driver, fetched, extracted).payload.record)
    ensures Respond(req, driver, fetched, extracted).payload.record in extracted.records
  {
  }

  /**
   * The route over the modelled stages: the page outcome goes through the
   * table selection and, when markup came back, the parsed form of that
   * markup (`parse` stands for the HTML library) through the record parser.
   */
  function Serve(req: Request, driver: DriverStart, page: PageOutcome, parse: string -> Option<Table>): (r: Response)
    ensures r.payload != Message(NoHtmlMessage)
  {
    var fetched := Fetch(page);
    var extracted := if fetched.html.Some? then Extract(parse(fetched.html.value)) else Extraction([], None);
    Respond(req, driver, fetched, extracted)
  }

  /** A result table whose only body row is blank ends in the "no record" 404, not in an error. */
  lemma ServeBlankTable(req: Request, page: PageOutcome, parse: string -> Option<Table>, t: Table, row: Row)
    requires Accepted(req) && page.Loaded?
    requires Fetch(page).html.Some? && parse(Fetch(page).html.value) == Some(t)
    requires t.body == Some([row]) && Text.AllSpace(row.text)
    ensures Serve(req, Started, page, parse) == Response(404, Message(NoRecordMessage))
  {
    ExtractBlankSentinel(t, row);
  }

  /**
   * When every table on the page has a body and none has a row, the fetch
   * itself reports "no record", and the route answers 500 with that message
   * before the parser is reached.
   */
  lemma ServeNoRowsTables(req: Request, tables: seq<DomTable>, parse: string -> Option<Table>)
    requires Accepted(req) && PassedOver(tables, 0, |tables|)
    ensures Serve(req, Started, Loaded(tables), parse) == Response(500, Error(NoRecordMessage))
  {
    SelectTableNoRows(tables);
  }

  /** Three parsed records of which only the middle one is an admission: that one is the answer. */
  lemma OneAdmissionAmongThree(req: Request, fetched: Fetched, a: Record, b: Record, c: Record)
    requires Accepted(req) && !Truthy(fetched.error) && Truthy(fetched.html)
    requires !IsAdmission(a) && IsAdmission(b) && !IsAdmission(c)
    ensures Respond(req, Started, fetched, Extraction([a, b, c], None)) == Response(200, Body(b))
  {
    FirstAdmission([a, b, c], 1);
  }
}
