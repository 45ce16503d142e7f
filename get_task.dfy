/** `get_task.handler`: GET /tasks/{taskId}. A read: it returns a response
    and leaves no new table behind. */
module GetTask {
  import opened Api

  /** `item = response.get('Item'); if not item`: an absent item and an empty
      one are both "not found". */
  predicate Found(t: Table, k: string) {
    k in t && t[k] != map[]
  }

  /** The response to one invocation on table `t`, where `fault` is the
      message of a `ClientError` that `get_item` would raise, if any. */
  function Handler(t: Table, e: Event, fault: Option<string>): (r: Response)
    ensures r.statusCode in {200, 400, 404, 500}
    // the path check comes first, whatever the store holds or would do
    ensures MissingTaskId(e.pathParameters) ==> r == BadRequest(TaskIdRequired)
    ensures e.pathParameters.NullPath? ==> IsInternalError(r)
    ensures HasTaskId(e.pathParameters) && fault.Some? ==>
              r == StoreFailure(RetrievePrefix, fault.value)
    ensures HasTaskId(e.pathParameters) && fault.None? ==>
              (r.statusCode == 200 <==> Found(t, TaskId(e.pathParameters)))
    ensures HasTaskId(e.pathParameters) && fault.None? && !Found(t, TaskId(e.pathParameters)) ==>
              r == Response(404, Message(NotFound))
    // a success returns the stored item verbatim
    ensures r.statusCode == 200 ==>
              HasTaskId(e.pathParameters) && TaskId(e.pathParameters) in t &&
              r.body == Item(t[TaskId(e.pathParameters)])
    // on a well-keyed table "not found" means exactly "no such key"
    ensures WellKeyed(t) && HasTaskId(e.pathParameters) && fault.None? ==>
              (r.statusCode == 404 <==> TaskId(e.pathParameters) !in t)
  {
    match e.pathParameters
    case NoPath => BadRequest(TaskIdRequired)
    case NullPath => Internal("TypeError")
    case Path(values) =>
      if TaskIdKey !in values then BadRequest(TaskIdRequired)
      else
        var k := values[TaskIdKey];
        if fault.Some? then StoreFailure(RetrievePrefix, fault.value)
        else if !Found(t, k) then Response(404, Message(NotFound))
        else Response(200, Item(t[k]))
  }
}
