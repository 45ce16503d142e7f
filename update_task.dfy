/** `update_task.handler`: PUT /tasks/{taskId}. */
module UpdateTask {
  import opened Api

  /** What `ReturnValues="UPDATED_NEW"` gives back: the three attributes the
      SET expression wrote, with their new values. */
  function UpdatedAttributes(fields: map<string, string>): Record
    requires HasRequired(fields)
  {
    map["title" := fields["title"], "description" := fields["description"], "status" := fields["status"]]
  }

  /** The item `update_item` starts from: the stored one, or, when there is
      none, a new item holding only its key. */
  function Base(t: Table, k: string): Record {
    if k in t then t[k] else map[TaskIdKey := k]
  }

  /** `r` holds exactly the required fields, with the body's values. */
  ghost predicate IsUpdatedAttributes(r: Record, fields: map<string, string>) {
    && (forall a :: a in r <==> a in RequiredFields)
    && forall f :: f in RequiredFields ==> f in fields && f in r && r[f] == fields[f]
  }

  /** `after` is `before` with the required fields set from the body and every
      other attribute kept as it was. */
  ghost predicate IsOverwrite(before: Record, after: Record, fields: map<string, string>) {
    && (forall f :: f in RequiredFields ==> f in fields && f in after && after[f] == fields[f])
    && forall a :: a !in RequiredFields ==> (a in after <==> a in before) && (a in before ==> after[a] == before[a])
  }

  /** The table after `update_item` sets the three attributes of key `k`. */
  function Write(t: Table, k: string, fields: map<string, string>): Table
    requires HasRequired(fields)
  {
    t[k := Base(t, k) + UpdatedAttributes(fields)]
  }

  /** The SET expression overwrites the required fields of the one addressed
      item and nothing else; in particular it keeps the item's `taskId`. */
  lemma WriteOverwrites(t: Table, k: string, fields: map<string, string>)
    requires HasRequired(fields)
    ensures k in Write(t, k, fields)
    ensures IsOverwrite(Base(t, k), Write(t, k, fields)[k], fields)
    ensures AgreeExcept(t, Write(t, k, fields), k)
    ensures IsUpdatedAttributes(UpdatedAttributes(fields), fields)
  {
    assert TaskIdKey !in RequiredFields;
  }

  /** Writing the same three values twice leaves what writing them once left. */
  lemma WriteTwice(t: Table, k: string, fields: map<string, string>)
    requires HasRequired(fields)
    ensures Write(Write(t, k, fields), k, fields) == Write(t, k, fields)
  {
    var a := UpdatedAttributes(fields);
    var item := Base(t, k) + a;
    assert Base(Write(t, k, fields), k) == item;
    assert item + a == item;
  }

  /** The response and the table after one invocation on table `t`, where
      `fault` is the message of a `ClientError` that `update_item` would
      raise, if any. */
  function Handler(t: Table, e: Event, fault: Option<string>): (o: Outcome)
    ensures o.response.statusCode in {200, 400, 500}
    // the path check comes before anything about the body
    ensures MissingTaskId(e.pathParameters) ==> o.response == BadRequest(TaskIdRequired)
    ensures e.pathParameters.NullPath? ==> IsInternalError(o.response)
    ensures HasTaskId(e.pathParameters) ==>
              && (e.body.NoBody? ==> o.response == BadRequest(BodyRequired))
              && (e.body.NullBody? ==> IsInternalError(o.response))
              && (e.body.Malformed? ==> o.response == BadRequest(InvalidJson))
              && (e.body.Json? ==> forall f :: IsFirstMissing(RequiredFields, e.body.fields, f) ==>
                    o.response == BadRequest(FieldRequired(f)))
              && (e.body.Json? && HasRequired(e.body.fields) && fault.Some? ==>
                    o.response == StoreFailure(UpdatePrefix, fault.value))
    // success exactly when every check and the store call pass; no existence check
    ensures o.response.statusCode == 200 <==>
              HasTaskId(e.pathParameters) && e.body.Json? && HasRequired(e.body.fields) && fault.None?
    // only a success writes, and only at the addressed key
    ensures o.response.statusCode != 200 ==> o.table == t
    ensures o.response.statusCode == 200 ==>
              var k := TaskId(e.pathParameters);
              && k in o.table
              && IsOverwrite(Base(t, k), o.table[k], e.body.fields)
              && AgreeExcept(t, o.table, k)
              && o.response.body.Item?
              && IsUpdatedAttributes(o.response.body.attributes, e.body.fields)
  {
    match e.pathParameters
    case NoPath => Outcome(BadRequest(TaskIdRequired), t)
    case NullPath => Outcome(Internal("TypeError"), t)
    case Path(values) =>
      if TaskIdKey !in values then Outcome(BadRequest(TaskIdRequired), t)
      else
        var k := values[TaskIdKey];
        match e.body
        case NoBody => Outcome(BadRequest(BodyRequired), t)
        case NullBody => Outcome(Internal("TypeError"), t)
        case Malformed => Outcome(BadRequest(InvalidJson), t)
        case Json(fields) =>
          var missing := FirstMissing(RequiredFields, fields);
          if missing.Some? then
            assert forall f :: IsFirstMissing(RequiredFields, fields, f) ==> f == missing.value by {
              forall f | IsFirstMissing(RequiredFields, fields, f) ensures f == missing.value {
                FirstMissingExact(RequiredFields, fields, f);
              }
            }
            Outcome(BadRequest(FieldRequired(missing.value)), t)
          else if fault.Some? then Outcome(StoreFailure(UpdatePrefix, fault.value), t)
          else
            WriteOverwrites(t, k, fields);
            Outcome(Response(200, Item(UpdatedAttributes(fields))), Write(t, k, fields))
  }

  /** Every item keeps its own key as `taskId`, and every item keeps the
      three required attributes: the update writes them and removes nothing. */
  lemma PreservesInvariants(t: Table, e: Event, fault: Option<string>)
    ensures WellKeyed(t) ==> WellKeyed(Handler(t, e, fault).table)
    ensures AllComplete(t) ==> AllComplete(Handler(t, e, fault).table)
  {
    var o := Handler(t, e, fault);
    if o.response.statusCode == 200 {
      var k := TaskId(e.pathParameters);
      assert TaskIdKey !in RequiredFields;
      assert o.table == Write(t, k, e.body.fields);
    }
  }
}
