/** `delete_task.handler`: DELETE /tasks/{taskId}. Unlike get and update it
    does not check the path parameters: `event['pathParameters']['taskId']`
    simply fails when they are missing, and the catch-all answers 500. */
module DeleteTask {
  import opened Api

  /** The response and the table after one invocation on table `t`, where
      `fault` is the message of a `ClientError` that `delete_item` would
      raise, if any. */
  function Handler(t: Table, e: Event, fault: Option<string>): (o: Outcome)
    ensures o.response.statusCode in {204, 500}
    // no 400: a missing key falls through to the catch-all
    ensures !HasTaskId(e.pathParameters) ==> IsInternalError(o.response)
    ensures HasTaskId(e.pathParameters) && fault.Some? ==>
              o.response == StoreFailure(DeletePrefix, fault.value)
    // 204 with an empty body whether or not the key was stored
    ensures o.response.statusCode == 204 <==> HasTaskId(e.pathParameters) && fault.None?
    ensures o.response.statusCode == 204 ==> o.response.body == Empty
    ensures o.response.statusCode != 204 ==> o.table == t
    ensures o.response.statusCode == 204 ==>
              var k := TaskId(e.pathParameters);
              k !in o.table && AgreeExcept(t, o.table, k)
  {
    match e.pathParameters
    case NoPath => Outcome(Internal("KeyError"), t)
    case NullPath => Outcome(Internal("TypeError"), t)
    case Path(values) =>
      if TaskIdKey !in values then Outcome(Internal("KeyError"), t)
      else
        var k := values[TaskIdKey];
        if fault.Some? then Outcome(StoreFailure(DeletePrefix, fault.value), t)
        else Outcome(Response(204, Empty), t - {k})
  }

  /** Removing an item leaves every other item as it was. */
  lemma PreservesInvariants(t: Table, e: Event, fault: Option<string>)
    ensures WellKeyed(t) ==> WellKeyed(Handler(t, e, fault).table)
    ensures AllComplete(t) ==> AllComplete(Handler(t, e, fault).table)
  {
  }
}
