/** Shared vocabulary of the four task handlers: the API-Gateway event as the
    handlers see it, the HTTP-style response they return, the DynamoDB table
    abstracted to a map keyed by `taskId`, the fixed response texts, and the
    search for the first missing required body field. */
module Api {

  datatype Option<T> = None | Some(value: T)

  /** One stored item: attribute name to attribute value. */
  type Record = map<string, string>

  /** The tasks table: partition key `taskId` to the stored item. */
  type Table = map<string, Record>

  /** `event['pathParameters']`: no such key, present but null, or a map. */
  datatype PathParameters = NoPath | NullPath | Path(values: map<string, string>)

  /** `event['body']` after `json.loads`: no such key, null (the value None or
      the JSON text `null`), text that does not decode, or a JSON object. */
  datatype Body = NoBody | NullBody | Malformed | Json(fields: map<string, string>)

  datatype Event = Event(pathParameters: PathParameters, body: Body)

  /** The decoded `body` of a response. */
  datatype Payload =
    | Error(error: string)
    | Message(message: string)
    | Item(attributes: Record)
    | Empty

  datatype Response = Response(statusCode: int, body: Payload)

  /** What a state-changing handler returns and leaves behind. */
  datatype Outcome = Outcome(response: Response, table: Table)

  const TaskIdKey := "taskId"
  const RequiredFields: seq<string> := ["title", "description", "status"]

  const BodyRequired := "Body is required"
  const InvalidJson := "Invalid JSON in request body"
  const TaskIdRequired := "taskId is required in pathParameters"
  const FieldRequiredSuffix := " is required in the body"
  const NotFound := "Task not found"
  const SavePrefix := "Error saving task: "
  const RetrievePrefix := "Error retrieving task: "
  const UpdatePrefix := "Error updating task: "
  const DeletePrefix := "Error deleting task: "
  const InternalPrefix := "Internal server error: "

  function BadRequest(error: string): Response {
    Response(400, Error(error))
  }

  function FieldRequired(field: string): string {
    field + FieldRequiredSuffix
  }

  /** A `ClientError` raised by the store call, reported under its action's prefix. */
  function StoreFailure(prefix: string, message: string): Response {
    Response(500, Error(prefix + message))
  }

  /** The catch-all around each handler; `cause` stands for `str(e)`, whose
      text is Python's and is modelled only as the exception's class name. */
  function Internal(cause: string): Response {
    Response(500, Error(InternalPrefix + cause))
  }

  predicate IsInternalError(r: Response) {
    r.statusCode == 500 && r.body.Error? && InternalPrefix <= r.body.error
  }

  /** The get/update path check finds no `taskId` and answers 400. */
  predicate MissingTaskId(p: PathParameters) {
    p.NoPath? || (p.Path? && TaskIdKey !in p.values)
  }

  predicate HasTaskId(p: PathParameters) {
    p.Path? && TaskIdKey in p.values
  }

  function TaskId(p: PathParameters): string
    requires HasTaskId(p)
  {
    p.values[TaskIdKey]
  }

  predicate HasRequired(fields: map<string, string>) {
    forall f :: f in RequiredFields ==> f in fields
  }

  /** Every stored item carries its own key as its `taskId` attribute, as a
      DynamoDB item always carries its partition key. */
  predicate WellKeyed(t: Table) {
    forall k :: k in t ==> TaskIdKey in t[k] && t[k][TaskIdKey] == k
  }

  /** Every stored item holds the three required attributes. */
  ghost predicate AllComplete(t: Table) {
    forall k :: k in t ==> HasRequired(t[k])
  }

  /** `t` and `t'` hold the same keys and the same items, except possibly at `k`. */
  ghost predicate AgreeExcept(t: Table, t': Table, k: string) {
    forall k' :: k' != k ==> (k' in t <==> k' in t') && (k' in t ==> t[k'] == t'[k'])
  }

  /** `f` is the field a walk over `required` in order stops at: missing from
      `fields`, with every earlier one present. */
  predicate IsFirstMissing(required: seq<string>, fields: map<string, string>, f: string) {
    exists i :: 0 <= i < |required| && required[i] == f && f !in fields &&
      forall j :: 0 <= j < i ==> required[j] in fields
  }

  /** The field `for field in required_fields: if field not in body` reports, if any. */
  function FirstMissing(required: seq<string>, fields: map<string, string>): (m: Option<string>)
    ensures m.None? <==> forall i :: 0 <= i < |required| ==> required[i] in fields
    ensures m.Some? ==> IsFirstMissing(required, fields, m.value)
  {
    if required == [] then None
    else if required[0] !in fields then Some(required[0])
    else
      var m := FirstMissing(required[1..], fields);
      assert forall i :: 1 <= i < |required| ==> required[i] == required[1..][i - 1];
      if m.Some? then
        var i :| 0 <= i < |required[1..]| && required[1..][i] == m.value && m.value !in fields &&
          forall j :: 0 <= j < i ==> required[1..][j] in fields;
        assert required[i + 1] == m.value;
        m
      else m
  }

  /** Only one field can be the first missing one, so `FirstMissing` is
      exactly characterised by `IsFirstMissing`. */
  lemma FirstMissingExact(required: seq<string>, fields: map<string, string>, f: string)
    ensures FirstMissing(required, fields) == Some(f) <==> IsFirstMissing(required, fields, f)
  {
  }

  /** The search loop of the create and update handlers. */
  method FindMissing(required: seq<string>, fields: map<string, string>) returns (missing: Option<string>)
    ensures missing == FirstMissing(required, fields)
  {
    var i := 0;
    while i < |required|
      invariant 0 <= i <= |required|
      invariant FirstMissing(required, fields) == FirstMissing(required[i..], fields)
    {
      assert required[i..][1..] == required[i + 1..];
      if required[i] !in fields {
        return Some(required[i]);
      }
      i := i + 1;
    }
    return None;
  }
}
