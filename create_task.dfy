/** `create_task.handler`: POST /tasks. */
module CreateTask {
  import opened Api

  /** The item `put_item` writes: the generated id and the three required
      fields of the body, and nothing else of the body. */
  function NewTask(id: string, fields: map<string, string>): Record
    requires HasRequired(fields)
  {
    map[TaskIdKey := id, "title" := fields["title"], "description" := fields["description"],
        "status" := fields["status"]]
  }

  /** `r` holds exactly `taskId` (set to `id`) and the required fields, each
      with the value the body gave it. */
  ghost predicate IsNewTask(r: Record, id: string, fields: map<string, string>) {
    && (forall a :: a in r <==> a == TaskIdKey || a in RequiredFields)
    && TaskIdKey in r && r[TaskIdKey] == id
    && forall f :: f in RequiredFields ==> f in fields && f in r && r[f] == fields[f]
  }

  /** The response and the table after one invocation on table `t`, where
      `newId` is the id `uuid4` draws and `fault` the message of a
      `ClientError` that `put_item` would raise, if any. */
  function Handler(t: Table, e: Event, newId: string, fault: Option<string>): (o: Outcome)
    ensures o.response.statusCode in {201, 400, 500}
    // checks take precedence in the order body present, JSON, fields, store
    ensures e.body.NoBody? ==> o.response == BadRequest(BodyRequired)
    ensures e.body.NullBody? ==> IsInternalError(o.response)
    ensures e.body.Malformed? ==> o.response == BadRequest(InvalidJson)
    ensures e.body.Json? ==> forall f :: IsFirstMissing(RequiredFields, e.body.fields, f) ==>
              o.response == BadRequest(FieldRequired(f))
    ensures e.body.Json? && HasRequired(e.body.fields) && fault.Some? ==>
              o.response == StoreFailure(SavePrefix, fault.value)
    // success exactly when every check and the store call pass
    ensures o.response.statusCode == 201 <==> e.body.Json? && HasRequired(e.body.fields) && fault.None?
    // only a success writes, and it writes the new id and nothing else
    ensures o.response.statusCode != 201 ==> o.table == t
    ensures o.response.statusCode == 201 ==>
              && newId in o.table
              && IsNewTask(o.table[newId], newId, e.body.fields)
              && AgreeExcept(t, o.table, newId)
              && o.response.body == Item(o.table[newId])
  {
    match e.body
    case NoBody => Outcome(BadRequest(BodyRequired), t)
    case NullBody => Outcome(Internal("TypeError"), t)
    case Malformed => Outcome(BadRequest(InvalidJson), t)
    case Json(fields) =>
      var missing := FirstMissing(RequiredFields, fields);
      if missing.Some? then
        assert forall f :: IsFirstMissing(RequiredFields, fields, f) ==> f == missing.value by {
          forall f | IsFirstMissing(RequiredFields, fields, f) ensures f == missing.value {
            FirstMissingExact(RequiredFields, fields, f);
          }
        }
        Outcome(BadRequest(FieldRequired(missing.value)), t)
      else
        var task := NewTask(newId, fields);
        if fault.Some? then Outcome(StoreFailure(SavePrefix, fault.value), t)
        else Outcome(Response(201, Item(task)), t[newId := task])
  }

  /** Every item keeps its own key as `taskId`, and every item keeps the
      three required attributes: the new item has all four. */
  lemma PreservesInvariants(t: Table, e: Event, newId: string, fault: Option<string>)
    ensures WellKeyed(t) ==> WellKeyed(Handler(t, e, newId, fault).table)
    ensures AllComplete(t) ==> AllComplete(Handler(t, e, newId, fault).table)
  {
  }
}
