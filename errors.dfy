/** The last error handler: it maps an error that escaped a handler to the
    HTTP status and message of the reply. */
module ErrorHandler {

  /** The fields of a thrown error the handler looks at. An empty string
      stands for an absent text field; `statusCode` 0 for an absent one. */
  datatype ServerError = ServerError(errorType: string, code: string, statusCode: int, message: string)

  datatype Reply = Reply(status: int, error: string)

  const PARSE_FAILED := "entity.parse.failed"
  /** PostgreSQL's SQLSTATE codes for a unique and a foreign-key violation. */
  const UNIQUE_VIOLATION := "23505"
  const FOREIGN_KEY_VIOLATION := "23503"

  function Classify(e: ServerError): (r: Reply)
    ensures r.error != ""
    ensures e.errorType == PARSE_FAILED ==> r == Reply(400, "Invalid JSON payload")
    ensures e.errorType != PARSE_FAILED && e.code == UNIQUE_VIOLATION ==> r == Reply(409, "Duplicate entry")
    ensures e.errorType != PARSE_FAILED && e.code == FOREIGN_KEY_VIOLATION ==> r == Reply(400, "Referenced record not found")
    ensures e.errorType != PARSE_FAILED && e.code != UNIQUE_VIOLATION && e.code != FOREIGN_KEY_VIOLATION ==>
              && (e.statusCode != 0 ==> r.status == e.statusCode)
              && (e.statusCode == 0 ==> r.status == 500)
              && (e.message != "" ==> r.error == e.message)
              && (e.message == "" ==> r.error == "Internal server error")
  {
    if e.errorType == PARSE_FAILED then Reply(400, "Invalid JSON payload")
    else if e.code == UNIQUE_VIOLATION then Reply(409, "Duplicate entry")
    else if e.code == FOREIGN_KEY_VIOLATION then Reply(400, "Referenced record not found")
    else Reply(if e.statusCode != 0 then e.statusCode else 500,
               if e.message != "" then e.message else "Internal server error")
  }

  /** A body that failed to parse is answered the same way whatever else the
      error carries: that check comes first. */
  lemma ParseFailureComesFirst(e: ServerError, code: string, statusCode: int, message: string)
    requires e.errorType == PARSE_FAILED
    ensures Classify(e) == Classify(e.(code := code, statusCode := statusCode, message := message))
  {
  }

  /** A constraint violation reported by the database overrides whatever
      status and message the error carries, and never reads as a server
      failure. */
  lemma ConstraintViolationsAreClientErrors(e: ServerError, statusCode: int, message: string)
    requires e.errorType != PARSE_FAILED
    requires e.code == UNIQUE_VIOLATION || e.code == FOREIGN_KEY_VIOLATION
    ensures Classify(e) == Classify(e.(statusCode := statusCode, message := message))
    ensures 400 <= Classify(e).status < 500
  {
  }

  /** Without a status of its own, an error that is neither a parse failure
      nor a constraint violation is a 500. */
  lemma UnclassifiedErrorsAreServerErrors(e: ServerError)
    requires e.errorType != PARSE_FAILED && e.code != UNIQUE_VIOLATION && e.code != FOREIGN_KEY_VIOLATION
    requires e.statusCode == 0
    ensures Classify(e).status == 500
  {
  }
}
