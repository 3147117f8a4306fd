/** The POST /api/favorites Lambda handler: preflight, body parsing, the validation gate,
    the repository call and the choice of status code. JSON.parse and the repository's
    create are parameters, so that what the handler does with them can be stated. */
module CreateFavorite {
  import opened JsValues
  import opened Validator
  import opened Http
  import opened ResponseHelper
  import opened FavoritesRepository

  const InvalidJsonMessage := "El cuerpo de la petición debe ser JSON válido"
  const SavedMessage := "Favorito guardado con éxito"

  /** What the catch looks for to recognise a duplicate. */
  const ConflictWords := "ya existe"

  /** JSON.parse: the parsed value, or None when it throws. */
  type Parser = string -> Option<JsValue>

  /** FavoritesRepository.create as the handler sees it. */
  type Store = map<string, JsValue> -> Completion<Created>

  /** The repository's create over a given engine. */
  function RepositoryStore(execute: Engine): Store {
    data => Create(execute, data)
  }

  /** `typeof event.body === 'string' ? JSON.parse(event.body) : event.body` */
  function ParseBody(body: JsValue, parse: Parser): (r: Option<JsValue>)
    ensures body.Str? ==> r == parse(body.s)
    ensures !body.Str? ==> r == Some(body)
  {
    if body.Str? then parse(body.s) else Some(body)
  }

  /** `{ id: result.insertId, ...validation.data }`: the later spread wins. */
  function Saved(insertId: int, data: map<string, JsValue>): JsValue {
    Obj(map["id" := Num(insertId)] + data)
  }

  /** The catch: storage failures first, then duplicates, then everything else. */
  function Classify(e: JsError): Response {
    if Includes(e.message, DatabaseWords) then Error(UnavailableMessage, Some(503), ErrorValue(e))
    else if Includes(e.message, ConflictWords) then Error(e.message, Some(409), ErrorValue(e))
    else Error(InternalMessage, Some(500), ErrorValue(e))
  }

  /** What the corrected catch also recognises: the repository's duplicate message. */
  const DuplicateWords := "ya está"

  /** The catch as evidently intended: the repository's duplicate error is a conflict. */
  function ClassifyIntended(e: JsError): Response {
    if Includes(e.message, DatabaseWords) then Error(UnavailableMessage, Some(503), ErrorValue(e))
    else if Includes(e.message, ConflictWords) || Includes(e.message, DuplicateWords) then
      Error(e.message, Some(409), ErrorValue(e))
    else Error(InternalMessage, Some(500), ErrorValue(e))
  }

  /** The handler with the catch given as `classify`. */
  function HandleWith(event: Event, parse: Parser, create: Store, classify: JsError -> Response): Response {
    if event.httpMethod == "OPTIONS" then Preflight("POST,OPTIONS")
    else
      match ParseBody(event.body, parse)
      case None => Error(InvalidJsonMessage, Some(400), Undefined)
      case Some(data) =>
        var validation := ValidateAndSanitize(data);
        if !validation.valid then ValidationError(validation.errors)
        else
          var record := validation.data.value;
          Answer(record, create(record), classify)
  }

  /** The response once the store has been called on `record`. */
  function Answer(record: map<string, JsValue>, outcome: Completion<Created>, classify: JsError -> Response): Response {
    match outcome
    case Returned(result) => Success(Saved(result.insertId, record), Some(SavedMessage), Some(201))
    case Threw(e) => classify(e)
  }

  /** handler, as written. */
  function Handle(event: Event, parse: Parser, create: Store): Response {
    HandleWith(event, parse, create, Classify)
  }

  /** handler with the corrected catch. */
  function HandleIntended(event: Event, parse: Parser, create: Store): Response {
    HandleWith(event, parse, create, ClassifyIntended)
  }

  // ---------------------------------------------------------------------------
  // The paths of the handler

  /** A preflight is answered with 200, an empty body and POST,OPTIONS, whatever the
      body, the parser and the store. */
  lemma PreflightIgnoresRequest(event: Event, other: Event, parse: Parser, parse': Parser, create: Store, create': Store)
    requires event.httpMethod == "OPTIONS" && other.httpMethod == "OPTIONS"
    ensures var r := Handle(event, parse, create);
      && r.statusCode == 200 && r.body == Empty && r.headers[AllowMethods] == "POST,OPTIONS"
      && r == Handle(other, parse', create')
  {
  }

  /** A string body JSON.parse rejects is answered with 400 before validation, and the
      store is not consulted. */
  lemma MalformedJsonIsRejected(event: Event, parse: Parser, create: Store, create': Store)
    requires event.httpMethod != "OPTIONS" && event.body.Str? && parse(event.body.s).None?
    ensures var r := Handle(event, parse, create);
      && r.statusCode == 400 && r.body == Envelope(false, InvalidJsonMessage, Cause(Undefined))
      && r == Handle(event, parse, create')
  {
  }

  /** A body that is not a string is validated as it is: JSON.parse is not called. */
  lemma NonStringBodyIsNotParsed(event: Event, parse: Parser, parse': Parser, create: Store)
    requires !event.body.Str?
    ensures Handle(event, parse, create) == Handle(event, parse', create)
  {
  }

  /** An input validate rejects is answered with the 400 validation error holding
      exactly validate's messages, and the store is not consulted. */
  lemma InvalidInputIsNotStored(event: Event, parse: Parser, create: Store, create': Store, data: JsValue)
    requires event.httpMethod != "OPTIONS" && ParseBody(event.body, parse) == Some(data)
    requires Errors(data) != []
    ensures var r := Handle(event, parse, create);
      && r.statusCode == 400 && r.body == Envelope(false, ValidationFailedMessage, ErrorList(Errors(data)))
      && r == Handle(event, parse, create')
  {
  }

  /** For an accepted input the response is decided by what the store does with the
      sanitized record. */
  lemma AcceptedInputIsStored(event: Event, parse: Parser, create: Store, classify: JsError -> Response, data: JsValue)
    requires event.httpMethod != "OPTIONS" && ParseBody(event.body, parse) == Some(data)
    requires Errors(data) == []
    ensures Sanitized(data).Some?
    ensures var record := Sanitized(data).value;
      HandleWith(event, parse, create, classify) == Answer(record, create(record), classify)
  {
    var validation := ValidateAndSanitize(data);
    assert validation.valid && validation.data == Sanitized(data);
  }

  /** For an accepted input the store is consulted only on the sanitized record: two
      stores that agree there give the same response. */
  lemma StoreSeesSanitizedRecord(event: Event, parse: Parser, create: Store, create': Store, data: JsValue)
    requires event.httpMethod != "OPTIONS" && ParseBody(event.body, parse) == Some(data)
    requires Errors(data) == []
    requires Sanitized(data).Some? && create(Sanitized(data).value) == create'(Sanitized(data).value)
    ensures Handle(event, parse, create) == Handle(event, parse, create')
  {
    AcceptedInputIsStored(event, parse, create, Classify, data);
    AcceptedInputIsStored(event, parse, create', Classify, data);
  }

  /** After a successful store the answer is 201 with the record itself as data: the
      record's own id hides the insertId. */
  lemma SavedAnswer(record: map<string, JsValue>, result: Created, classify: JsError -> Response)
    requires "id" in record
    ensures var r := Answer(record, Returned(result), classify);
      r.statusCode == 201 && r.body == Envelope(true, SavedMessage, Data(Obj(record)))
  {
    assert map["id" := Num(result.insertId)] + record == record;
  }

  /** The success response: 201, and the sanitized record as data, with the trimmed
      input id rather than the insertId the store returned. */
  lemma SavedRecordIsSanitized(event: Event, parse: Parser, create: Store, data: JsValue)
    requires event.httpMethod != "OPTIONS" && ParseBody(event.body, parse) == Some(data)
    requires Errors(data) == []
    requires Sanitized(data).Some? && create(Sanitized(data).value).Returned?
    ensures var r := Handle(event, parse, create);
      && r.statusCode == 201
      && r.body == Envelope(true, SavedMessage, Data(Obj(Sanitized(data).value)))
      && Get(Obj(Sanitized(data).value), "id") == Str(Trim(Get(data, "id").s))
  {
    AcceptedInputIsStored(event, parse, create, Classify, data);
    ErrorsEmptyIffAcceptable(data);
    AcceptedSanitizes(data);
    var record := Sanitized(data).value;
    SavedAnswer(record, create(record).value, Classify);
  }

  /** The catch answers with 503, 409 or 500 and a failure envelope. */
  lemma ClassifyStatuses(e: JsError)
    ensures var r := Classify(e);
      (r.statusCode == 503 || r.statusCode == 409 || r.statusCode == 500) && r.body.Envelope? && !r.body.success
  {
  }

  /** Whatever the request, parser and store, the handler answers with one of six
      status codes, and the body is empty exactly for a preflight. */
  lemma EveryPathResponds(event: Event, parse: Parser, create: Store)
    ensures var code := Handle(event, parse, create).statusCode;
      code == 200 || code == 201 || code == 400 || code == 409 || code == 500 || code == 503
    ensures Handle(event, parse, create).body.Empty? <==> event.httpMethod == "OPTIONS"
  {
    if event.httpMethod != "OPTIONS" {
      match ParseBody(event.body, parse)
      case None =>
      case Some(data) =>
        var validation := ValidateAndSanitize(data);
        if validation.valid {
          var record := validation.data.value;
          match create(record)
          case Returned(result) =>
          case Threw(e) => ClassifyStatuses(e);
        }
    }
  }

  // ---------------------------------------------------------------------------
  // With the repository's create

  /** An accepted input is stored with its trimmed id and name in the first two of the
      nine placeholders. */
  lemma StoredIdAndName(data: JsValue)
    requires Errors(data) == []
    ensures Sanitized(data).Some?
    ensures var values := InsertValues(Sanitized(data).value);
      && |values| == |Columns|
      && values[0] == Str(Trim(Get(data, "id").s)) && values[1] == Str(Trim(Get(data, "name").s))
  {
    ErrorsEmptyIffAcceptable(data);
    AcceptedIdAndNameStored(data);
  }

  lemma AcceptedIdAndNameStored(data: JsValue)
    requires IdAccepted(Get(data, "id")) && NameAccepted(Get(data, "name"))
    ensures Sanitized(data).Some?
    ensures var values := InsertValues(Sanitized(data).value);
      && |values| == |Columns|
      && values[0] == Str(Trim(Get(data, "id").s)) && values[1] == Str(Trim(Get(data, "name").s))
  {
    AcceptedSanitizes(data);
    InsertValuesStartWithIdAndName(Sanitized(data).value);
  }

  /** Every other column of an accepted input is stored as the sanitized value, or as
      null when that value is falsy (an absent field, '', a whitespace-only string, 0,
      false, null). */
  lemma StoredOptionalValues(data: JsValue, i: nat)
    requires Sanitized(data).Some? && 2 <= i < |Columns|
    ensures var values := InsertValues(Sanitized(data).value);
      && |values| == |Columns|
      && (values[i] == Null <==> !Truthy(Normalized(Get(data, Columns[i]))))
      && (values[i] != Null ==> values[i] == Normalized(Get(data, Columns[i])))
  {
    InsertValuesInColumnOrder(Sanitized(data).value);
    assert Columns[2..] == OptionalFields;
    assert Columns[i] == Columns[2..][i - 2];
    SanitizedFields(data, Columns[i]);
  }

  /** The duplicate message has no letter x, so it does not include "ya existe". */
  lemma DuplicateMessageIsNotConflict()
    ensures !Includes(DuplicateMessage, ConflictWords)
  {
    DuplicateMessageLetters();
    LacksChar(DuplicateMessage, ConflictWords, 'x');
  }

  /** The repository's duplicate message does include "ya está". */
  lemma DuplicateMessageIsRecognised()
    ensures Includes(DuplicateMessage, DuplicateWords)
  {
    assert DuplicateMessage[15..15 + |DuplicateWords|] == DuplicateWords;
    IncludesAt(DuplicateMessage, DuplicateWords, 15);
  }

  /** As written, the catch sends the repository's duplicate error to 500, since it
      mentions neither the database nor "ya existe", and every other create error to
      503. */
  lemma ClassifyCreateError(code: string, message: string)
    ensures var r := Classify(CreateError(code, message));
      r.statusCode == if code == DuplicateCode then 500 else 503
  {
    CreateErrorTaxonomy(code, message);
    DuplicateMessageIsNotConflict();
  }

  /** With the corrected catch the repository's duplicate error is a 409 carrying its
      message, and every other create error still a 503. */
  lemma ClassifyIntendedCreateError(code: string, message: string)
    ensures var r := ClassifyIntended(CreateError(code, message));
      && r.statusCode == (if code == DuplicateCode then 409 else 503)
      && (code == DuplicateCode ==> r.body.Envelope? && r.body.message == DuplicateMessage)
  {
    CreateErrorTaxonomy(code, message);
    DuplicateMessageIsRecognised();
  }

  /** The status of an accepted input stored through the repository, as written: 201
      when the insert succeeds, 500 for a duplicate id (not 409), 503 for any other
      failure. */
  lemma RepositoryCreateStatus(event: Event, parse: Parser, execute: Engine, data: JsValue)
    requires event.httpMethod != "OPTIONS" && ParseBody(event.body, parse) == Some(data)
    requires Errors(data) == []
    ensures Sanitized(data).Some?
    ensures var outcome := execute(Insert(InsertValues(Sanitized(data).value)));
      Handle(event, parse, RepositoryStore(execute)).statusCode ==
        if outcome.Executed? then 201 else if outcome.code == DuplicateCode then 500 else 503
  {
    AcceptedInputIsStored(event, parse, RepositoryStore(execute), Classify, data);
    var outcome := execute(Insert(InsertValues(Sanitized(data).value)));
    if outcome.EngineFailed? {
      ClassifyCreateError(outcome.code, outcome.message);
    }
  }

  /** The same with the corrected catch: a duplicate id ends in 409. */
  lemma RepositoryCreateStatusIntended(event: Event, parse: Parser, execute: Engine, data: JsValue)
    requires event.httpMethod != "OPTIONS" && ParseBody(event.body, parse) == Some(data)
    requires Errors(data) == []
    ensures Sanitized(data).Some?
    ensures var outcome := execute(Insert(InsertValues(Sanitized(data).value)));
      HandleIntended(event, parse, RepositoryStore(execute)).statusCode ==
        if outcome.Executed? then 201 else if outcome.code == DuplicateCode then 409 else 503
  {
    AcceptedInputIsStored(event, parse, RepositoryStore(execute), ClassifyIntended, data);
    var outcome := execute(Insert(InsertValues(Sanitized(data).value)));
    if outcome.EngineFailed? {
      ClassifyIntendedCreateError(outcome.code, outcome.message);
    }
  }

  /** As written, the 409 branch is never taken when the store is the repository. */
  lemma NoConflictFromRepository(event: Event, parse: Parser, execute: Engine)
    ensures Handle(event, parse, RepositoryStore(execute)).statusCode != 409
  {
    if event.httpMethod != "OPTIONS" {
      match ParseBody(event.body, parse)
      case None =>
      case Some(data) =>
        if Errors(data) == [] {
          RepositoryCreateStatus(event, parse, execute, data);
        }
    }
  }
}
