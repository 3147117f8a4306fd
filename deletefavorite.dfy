/** The DELETE /api/favorites/{id} Lambda handler: preflight, the path id check, the
    repository call and the choice of status code. The repository's delete is a
    parameter, so that what the handler does with it can be stated. */
module DeleteFavorite {
  import opened JsValues
  import opened Http
  import opened ResponseHelper
  import opened FavoritesRepository

  const MissingIdMessage := "ID de favorito requerido"
  const NotFoundAnswer := "Favorito no encontrado"
  const DeletedMessage := "Favorito eliminado con éxito"

  /** What the catch looks for to recognise a missing record. */
  const NotFoundWords := "no encontrado"

  /** FavoritesRepository.delete as the handler sees it. */
  type Remover = JsValue -> Completion<Deleted>

  /** The repository's delete over a given engine. */
  function RepositoryRemover(execute: Engine): Remover {
    id => Delete(execute, id)
  }

  /** `event.pathParameters?.id` */
  function PathId(event: Event): Option<string> {
    if event.pathParameters.Some? && "id" in event.pathParameters.value then
      Some(event.pathParameters.value["id"])
    else None
  }

  /** The catch: a missing record first, then storage failures, then everything else. */
  function Classify(e: JsError): Response {
    if Includes(e.message, NotFoundWords) then Error(NotFoundAnswer, Some(404), ErrorValue(e))
    else if Includes(e.message, DatabaseWords) then Error(UnavailableMessage, Some(503), ErrorValue(e))
    else Error(InternalMessage, Some(500), ErrorValue(e))
  }

  /** The response once the remover has been called with the parsed id. */
  function Answer(id: JsValue, outcome: Completion<Deleted>): Response {
    match outcome
    case Returned(_) => Success(Obj(map["id" := id]), Some(DeletedMessage), Some(200))
    case Threw(e) => Classify(e)
  }

  /** handler: `parseInt(id, 10)` is computed twice in the source, with one result. */
  function Handle(event: Event, remove: Remover): Response {
    if event.httpMethod == "OPTIONS" then Preflight("DELETE,OPTIONS")
    else
      var id := PathId(event);
      if id.None? || id.value == "" then Error(MissingIdMessage, Some(400), Undefined)
      else
        var key := ParseInt(id.value);
        Answer(key, remove(key))
  }

  // ---------------------------------------------------------------------------
  // The paths of the handler

  /** A preflight is answered with 200, an empty body and DELETE,OPTIONS, whatever the
      path and the remover. */
  lemma PreflightIgnoresRequest(event: Event, other: Event, remove: Remover, remove': Remover)
    requires event.httpMethod == "OPTIONS" && other.httpMethod == "OPTIONS"
    ensures var r := Handle(event, remove);
      && r.statusCode == 200 && r.body == Empty && r.headers[AllowMethods] == "DELETE,OPTIONS"
      && r == Handle(other, remove')
  {
  }

  /** A missing or empty id is answered with 400 and the remover is not consulted. */
  lemma MissingIdIsRejected(event: Event, remove: Remover, remove': Remover)
    requires event.httpMethod != "OPTIONS"
    requires PathId(event).None? || PathId(event).value == ""
    ensures var r := Handle(event, remove);
      && r.statusCode == 400 && r.body == Envelope(false, MissingIdMessage, Cause(Undefined))
      && r == Handle(event, remove')
  {
  }

  /** The remover is consulted only on parseInt of the path id, and a successful removal
      is answered with 200 and that same number as the data's id. */
  lemma RemoverSeesParsedId(event: Event, remove: Remover, remove': Remover)
    requires event.httpMethod != "OPTIONS" && PathId(event).Some? && PathId(event).value != ""
    requires remove(ParseInt(PathId(event).value)) == remove'(ParseInt(PathId(event).value))
    ensures Handle(event, remove) == Handle(event, remove')
    ensures remove(ParseInt(PathId(event).value)).Returned? ==>
      var r := Handle(event, remove);
      && r.statusCode == 200
      && r.body == Envelope(true, DeletedMessage, Data(Obj(map["id" := ParseInt(PathId(event).value)])))
  {
  }

  /** A path id written as a decimal integer comes back as that integer. */
  lemma DeletedIdIsPathNumber(event: Event, remove: Remover, n: int)
    requires event.httpMethod != "OPTIONS" && PathId(event) == Some(DecimalString(n))
    requires remove(Num(n)).Returned?
    ensures Handle(event, remove).body == Envelope(true, DeletedMessage, Data(Obj(map["id" := Num(n)])))
  {
    ParseIntDecimalString(n);
  }

  /** The catch answers with 404, 503 or 500 and a failure envelope. */
  lemma ClassifyStatuses(e: JsError)
    ensures var r := Classify(e);
      (r.statusCode == 404 || r.statusCode == 503 || r.statusCode == 500) && r.body.Envelope? && !r.body.success
  {
  }

  /** Whatever the request and remover, the handler answers with one of five status
      codes, and the body is empty exactly for a preflight. */
  lemma EveryPathResponds(event: Event, remove: Remover)
    ensures var code := Handle(event, remove).statusCode;
      code == 200 || code == 400 || code == 404 || code == 500 || code == 503
    ensures Handle(event, remove).body.Empty? <==> event.httpMethod == "OPTIONS"
  {
    var id := PathId(event);
    if event.httpMethod != "OPTIONS" && id.Some? && id.value != "" {
      match remove(ParseInt(id.value))
      case Returned(_) =>
      case Threw(e) => ClassifyStatuses(e);
    }
  }

  // ---------------------------------------------------------------------------
  // With the repository's delete

  /** The not-found message includes "no encontrado". */
  lemma NotFoundMessageIsRecognised()
    ensures Includes(NotFoundMessage, NotFoundWords)
  {
    assert NotFoundMessage[9..9 + |NotFoundWords|] == NotFoundWords;
    IncludesAt(NotFoundMessage, NotFoundWords, 9);
  }

  /** The delete failure prefix has no c, and no n among its last twelve characters,
      so no "no encontrado" starts inside it. */
  lemma DeletePrefixLetters()
    ensures 'c' !in DeleteFailurePrefix
    ensures forall j :: |DeleteFailurePrefix| - |NotFoundWords| < j < |DeleteFailurePrefix| ==>
      DeleteFailurePrefix[j] != NotFoundWords[0]
  {
    var tail := "e de datos: ";
    assert DeleteFailurePrefix == "Error al eliminar de la bas" + tail;
    forall j | |DeleteFailurePrefix| - |NotFoundWords| < j < |DeleteFailurePrefix|
      ensures DeleteFailurePrefix[j] != NotFoundWords[0]
    {
      assert DeleteFailurePrefix[j] == tail[j - 27];
    }
  }

  /** Wrapping a message in the delete failure prefix neither adds nor removes a
      "no encontrado". */
  lemma WrappedNotFoundWords(message: string)
    ensures Includes(DeleteFailurePrefix + message, NotFoundWords) <==> Includes(message, NotFoundWords)
  {
    DeletePrefixLetters();
    LacksChar(DeleteFailurePrefix, NotFoundWords, 'c');
    IncludesConcat(DeleteFailurePrefix, message, NotFoundWords);
  }

  /** A wrapped delete failure mentions the database. */
  lemma WrappedMentionsDatabase(message: string)
    ensures Includes(DeleteFailurePrefix + message, DatabaseWords)
  {
    assert DeleteFailurePrefix + message == "Error al eliminar de la " + DatabaseWords + (": " + message);
    MentionsDatabase("Error al eliminar de la ", ": " + message);
  }

  /** The catch on the repository's delete errors: its not-found error is a 404, and any
      engine failure is a 404 when its message says "no encontrado" and a 503 otherwise
      (the wrapped message mentions the database). */
  lemma ClassifyDeleteError(message: string)
    ensures Classify(JsError(NotFoundMessage)).statusCode == 404
    ensures Classify(DeleteError(JsError(message))).statusCode ==
      if Includes(message, NotFoundWords) then 404 else 503
  {
    NotFoundMessageIsRecognised();
    if message != NotFoundMessage {
      WrappedNotFoundWords(message);
      WrappedMentionsDatabase(message);
    }
  }

  /** The status of a delete through the repository: 200 when a row went, 404 when none
      did, and for an engine failure 404 or 503 by whether its message says
      "no encontrado"; never 500. */
  lemma RepositoryDeleteStatus(event: Event, execute: Engine)
    requires event.httpMethod != "OPTIONS" && PathId(event).Some? && PathId(event).value != ""
    ensures var outcome := execute(DeleteById(ParseInt(PathId(event).value)));
      Handle(event, RepositoryRemover(execute)).statusCode ==
        if outcome.Executed? then (if outcome.affectedRows == 0 then 404 else 200)
        else if Includes(outcome.message, NotFoundWords) then 404
        else 503
  {
    var outcome := execute(DeleteById(ParseInt(PathId(event).value)));
    if outcome.EngineFailed? {
      ClassifyDeleteError(outcome.message);
    } else {
      ClassifyDeleteError("");
    }
  }
}
