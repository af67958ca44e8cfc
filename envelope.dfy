/**
 * What a handler answers: a JSON envelope with an HTTP status code, or an
 * exception that escapes to the web framework. Also the answers the
 * database gives, which the model takes as inputs.
 */
module Envelope {
  import opened Json

  datatype Status = Success | Error

  /** A row as the database returns it: column name to value, in column order. */
  type Row = seq<(string, Value)>

  /** The three envelope shapes the endpoint produces. */
  datatype Envelope =
    | Notice(status: Status, message: string)        // {status, message}
    | Inserted(message: string, insertedId: Value)   // {status: success, message, inserted_id}
    | Listing(count: nat, data: seq<Row>)            // {status: success, count, data}
  {
    function StatusOf(): Status
    {
      if Notice? then status else Success
    }
  }

  /**
   * Exceptions a handler can raise before it reaches the database: Python's
   * TypeError and AttributeError, and PHP's TypeError for an argument of the
   * wrong type.
   */
  datatype Exception = TypeError | AttributeError

  datatype Outcome =
    | Reply(code: nat, envelope: Envelope)
    | Raised(exception: Exception)

  /** A handler's whole effect: the one database call it issued, if any, and its outcome. */
  datatype Exchange<Q> = Exchange(executed: Option<Q>, outcome: Outcome)

  /**
   * What the database answers to the single call a handler makes: the
   * generated id of an insert, the number of rows an update or delete
   * affected, and the rows a select returned.
   */
  datatype Db = Db(lastId: Value, affected: int, rows: seq<Row>)

  const REQUIRED_IN_URL := "Table name and type are required in the URL."
  const INVALID_TYPE := "Invalid action type. Use insert/update/delete/get."
  const INSERT_REQUIRED := "Data is required for insert operation."
  const INSERTED := "Data inserted successfully."
  const UPDATE_REQUIRED := "Primary key field, value, and data are required for update operation."
  const UPDATED := "Data updated successfully."
  const NOT_UPDATED := "No record updated."
  const DELETE_REQUIRED := "Primary key field and value are required for delete operation."
  const DELETED := "Record deleted successfully."
  const NOT_DELETED := "No record found to delete."

  /** A validation failure: HTTP 400 with an error envelope, and no database call. */
  function Rejected<Q>(message: string): Exchange<Q>
  {
    Exchange(None, Reply(400, Notice(Error, message)))
  }

  /** The envelope for an update or delete, given the affected-row count. */
  function Affected(count: int, done: string, none: string): (e: Envelope)
    ensures e.StatusOf() == Success <==> count != 0
    ensures e.Notice? && e.message == (if count != 0 then done else none)
  {
    if count != 0 then Notice(Success, done) else Notice(Error, none)
  }
}
