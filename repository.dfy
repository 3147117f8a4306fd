/** FavoritesRepository: the three data-access operations, with the database engine as a
    function from statement to outcome. Only the parameter lists and the mapping of
    engine failures to the errors the handlers see are modelled, not SQL. */
module FavoritesRepository {
  import opened JsValues

  /** The statements the repository sends, without their SQL text. */
  datatype Statement =
    | SelectAll
    | Insert(values: seq<JsValue>)
    | DeleteById(id: JsValue)

  /** What `db.execute` resolves to (the result header and rows) or rejects with (the
      driver's error code and message). */
  datatype EngineOutcome =
    | Executed(insertId: int, affectedRows: int, rows: seq<JsValue>)
    | EngineFailed(code: string, message: string)

  type Engine = Statement -> EngineOutcome

  datatype Created = Created(insertId: int, affectedRows: int)

  datatype Deleted = Deleted(affectedRows: int)

  /** The driver's code for a duplicate primary key (MySQL error 1062). */
  const DuplicateCode := "ER_DUP_ENTRY"
  const DuplicateMessage := "Este personaje ya está en favoritos"
  const SaveFailurePrefix := "Error al guardar en la base de datos: "
  const NotFoundMessage := "Favorito no encontrado"
  const DeleteFailurePrefix := "Error al eliminar de la base de datos: "
  const QueryFailureMessage := "Error al consultar la base de datos"

  /** The words the handlers look for to recognise a storage failure. */
  const DatabaseWords := "base de datos"

  /** The columns of the INSERT statement, in placeholder order. */
  const Columns: seq<string> :=
    ["id", "name", "height", "mass", "hair_color", "skin_color", "eye_color", "birth_year", "gender"]

  // ---------------------------------------------------------------------------
  // getAll

  /** getAll: the rows as the engine gives them, or one fixed error. */
  function GetAll(execute: Engine): (r: Completion<seq<JsValue>>)
    ensures execute(SelectAll).Executed? ==> r == Returned(execute(SelectAll).rows)
    ensures execute(SelectAll).EngineFailed? ==> r == Threw(JsError(QueryFailureMessage))
  {
    match execute(SelectAll)
    case Executed(_, _, rows) => Returned(rows)
    case EngineFailed(_, _) => Threw(JsError(QueryFailureMessage))
  }

  // ---------------------------------------------------------------------------
  // create

  /** The nine placeholder values: id and name as given, every other column the field's
      value or null when it is falsy. */
  function InsertValues(data: map<string, JsValue>): seq<JsValue> {
    var record := Obj(data);
    [ Get(record, "id"),
      Get(record, "name"),
      OrNull(Get(record, "height")),
      OrNull(Get(record, "mass")),
      OrNull(Get(record, "hair_color")),
      OrNull(Get(record, "skin_color")),
      OrNull(Get(record, "eye_color")),
      OrNull(Get(record, "birth_year")),
      OrNull(Get(record, "gender")) ]
  }

  /** One value per column, in column order: id and name as given, every other column
      the field's value or null when it is falsy. */
  lemma InsertValuesInColumnOrder(data: map<string, JsValue>)
    ensures var r := InsertValues(data);
      && |r| == |Columns|
      && r[0] == Get(Obj(data), Columns[0]) && r[1] == Get(Obj(data), Columns[1])
      && forall i :: 2 <= i < |r| ==> r[i] == OrNull(Get(Obj(data), Columns[i]))
  {
  }

  /** The first two placeholders are the record's id and name. */
  lemma InsertValuesStartWithIdAndName(data: map<string, JsValue>)
    ensures var r := InsertValues(data);
      |r| == |Columns| && r[0] == Get(Obj(data), "id") && r[1] == Get(Obj(data), "name")
  {
  }

  /** The error create's catch throws for an engine failure. */
  function CreateError(code: string, message: string): JsError {
    if code == DuplicateCode then JsError(DuplicateMessage)
    else JsError(SaveFailurePrefix + message)
  }

  /** create: inserts the nine values; returns the engine's insertId and affectedRows, or
      throws the mapped error. */
  function Create(execute: Engine, data: map<string, JsValue>): (r: Completion<Created>)
    ensures var outcome := execute(Insert(InsertValues(data)));
      && (outcome.Executed? ==> r == Returned(Created(outcome.insertId, outcome.affectedRows)))
      && (outcome.EngineFailed? ==> r == Threw(CreateError(outcome.code, outcome.message)))
  {
    match execute(Insert(InsertValues(data)))
    case Executed(insertId, affectedRows, _) => Returned(Created(insertId, affectedRows))
    case EngineFailed(code, message) => Threw(CreateError(code, message))
  }

  // ---------------------------------------------------------------------------
  // delete

  /** The error delete's catch throws: its own not-found error (or any error with that
      exact message) unchanged, anything else wrapped. */
  function DeleteError(e: JsError): JsError {
    if e.message == NotFoundMessage then e
    else JsError(DeleteFailurePrefix + e.message)
  }

  /** delete: no affected row is a not-found error, thrown inside the try and so passed
      through the catch as well. */
  function Delete(execute: Engine, id: JsValue): (r: Completion<Deleted>)
    ensures var outcome := execute(DeleteById(id));
      && (outcome.Executed? && outcome.affectedRows != 0 ==> r == Returned(Deleted(outcome.affectedRows)))
      && (outcome.Executed? && outcome.affectedRows == 0 ==> r == Threw(JsError(NotFoundMessage)))
      && (outcome.EngineFailed? ==> r == Threw(DeleteError(JsError(outcome.message))))
  {
    var attempt :=
      match execute(DeleteById(id))
      case Executed(_, affectedRows, _) =>
        if affectedRows == 0 then Threw(JsError(NotFoundMessage)) else Returned(Deleted(affectedRows))
      case EngineFailed(_, message) => Threw(JsError(message));
    match attempt
    case Returned(_) => attempt
    case Threw(e) => Threw(DeleteError(e))
  }

  // ---------------------------------------------------------------------------
  // The error taxonomy

  /** A message that has the database words after some text mentions the database,
      whatever follows. */
  lemma MentionsDatabase(head: string, tail: string)
    ensures Includes(head + DatabaseWords + tail, DatabaseWords)
  {
    var text := head + DatabaseWords + tail;
    assert text[|head|..|head| + |DatabaseWords|] == DatabaseWords;
    IncludesAt(text, DatabaseWords, |head|);
  }

  /** The duplicate message has neither a letter b nor a letter x. */
  lemma DuplicateMessageLetters()
    ensures 'b' !in DuplicateMessage && 'x' !in DuplicateMessage
  {
  }

  /** The duplicate message does not mention the database. */
  lemma DuplicateMessageIsNotStorage()
    ensures !Includes(DuplicateMessage, DatabaseWords)
  {
    DuplicateMessageLetters();
    LacksChar(DuplicateMessage, DatabaseWords, 'b');
  }

  /** A wrapped save failure is not the duplicate message, mentions the database and
      carries the engine's message. */
  lemma SaveFailureMessage(message: string)
    ensures SaveFailurePrefix + message != DuplicateMessage
    ensures Includes(SaveFailurePrefix + message, DatabaseWords)
    ensures Includes(SaveFailurePrefix + message, message)
  {
    var text := SaveFailurePrefix + message;
    assert text[1] == 'r' && DuplicateMessage[1] == 's';
    assert text == "Error al guardar en la " + DatabaseWords + (": " + message);
    MentionsDatabase("Error al guardar en la ", ": " + message);
    assert text[|SaveFailurePrefix|..|SaveFailurePrefix| + |message|] == message;
    IncludesAt(text, message, |SaveFailurePrefix|);
  }

  /** create reports a duplicate exactly for the duplicate-key code; every other failure
      mentions the database and carries the engine's message. */
  lemma CreateErrorTaxonomy(code: string, message: string)
    ensures CreateError(code, message).message == DuplicateMessage <==> code == DuplicateCode
    ensures code != DuplicateCode ==>
      && Includes(CreateError(code, message).message, DatabaseWords)
      && Includes(CreateError(code, message).message, message)
    ensures code == DuplicateCode ==> !Includes(CreateError(code, message).message, DatabaseWords)
  {
    DuplicateMessageIsNotStorage();
    SaveFailureMessage(message);
  }

  /** Every error delete throws is the not-found error or mentions the database; a
      missing row always gives the not-found error. */
  lemma DeleteErrorTaxonomy(execute: Engine, id: JsValue)
    ensures Delete(execute, id).Threw? ==>
      Delete(execute, id).error.message == NotFoundMessage
      || Includes(Delete(execute, id).error.message, DatabaseWords)
    ensures Delete(execute, id).Returned? ==> Delete(execute, id).value.affectedRows != 0
  {
    var outcome := execute(DeleteById(id));
    if outcome.EngineFailed? && outcome.message != NotFoundMessage {
      var text := DeleteFailurePrefix + outcome.message;
      assert text == "Error al eliminar de la " + DatabaseWords + (": " + outcome.message);
      MentionsDatabase("Error al eliminar de la ", ": " + outcome.message);
    }
  }

  /** getAll's only error mentions the database. */
  lemma GetAllErrorMentionsDatabase(execute: Engine)
    ensures GetAll(execute).Threw? ==> Includes(GetAll(execute).error.message, DatabaseWords)
  {
    if execute(SelectAll).EngineFailed? {
      assert QueryFailureMessage == "Error al consultar la " + DatabaseWords + "";
      MentionsDatabase("Error al consultar la ", "");
    }
  }
}
