/** Properties that relate several handler invocations, or several handlers,
    to each other. */
module Properties {
  import opened Api
  import CreateTask
  import GetTask
  import UpdateTask
  import DeleteTask

  /** A get event addressing `k`. */
  function Addressing(k: string): Event {
    Event(Path(map[TaskIdKey := k]), NoBody)
  }

  /** The two bodies agree on which required fields they hold and on those
      fields' values; they may differ in any other key. */
  ghost predicate SameRequired(f1: map<string, string>, f2: map<string, string>) {
    forall f :: f in RequiredFields ==> (f in f1 <==> f in f2) && (f in f1 ==> f1[f] == f2[f])
  }

  /** After a successful create, a get of the new id finds the item the
      create returned, with the body's title, description and status. */
  lemma CreateThenGet(t: Table, e: Event, newId: string, get: Event)
    requires CreateTask.Handler(t, e, newId, None).response.statusCode == 201
    requires HasTaskId(get.pathParameters) && TaskId(get.pathParameters) == newId
    ensures var created := CreateTask.Handler(t, e, newId, None);
            var r := GetTask.Handler(created.table, get, None);
            && r.statusCode == 200
            && r.body == created.response.body
            && r.body.attributes[TaskIdKey] == newId
            && forall f :: f in RequiredFields ==> r.body.attributes[f] == e.body.fields[f]
  {
  }

  /** Fields are checked for presence only and only the required ones are
      read: bodies that agree on the required fields find the same first
      missing field, or none. */
  lemma SameRequiredSameMissing(f1: map<string, string>, f2: map<string, string>)
    requires SameRequired(f1, f2)
    ensures FirstMissing(RequiredFields, f1) == FirstMissing(RequiredFields, f2)
  {
    var m := FirstMissing(RequiredFields, f1);
    if m.Some? {
      FirstMissingExact(RequiredFields, f1, m.value);
      FirstMissingExact(RequiredFields, f2, m.value);
    } else {
      assert HasRequired(f2);
    }
  }

  /** Create ignores every key of the body but the three required ones. */
  lemma CreateIgnoresExtraKeys(t: Table, p: PathParameters, f1: map<string, string>, f2: map<string, string>,
                               newId: string, fault: Option<string>)
    requires SameRequired(f1, f2)
    ensures CreateTask.Handler(t, Event(p, Json(f1)), newId, fault) ==
            CreateTask.Handler(t, Event(p, Json(f2)), newId, fault)
  {
    SameRequiredSameMissing(f1, f2);
    if HasRequired(f1) {
      assert CreateTask.NewTask(newId, f1) == CreateTask.NewTask(newId, f2);
    }
  }

  /** Update ignores every key of the body but the three required ones. */
  lemma UpdateIgnoresExtraKeys(t: Table, p: PathParameters, f1: map<string, string>, f2: map<string, string>,
                               fault: Option<string>)
    requires SameRequired(f1, f2)
    ensures UpdateTask.Handler(t, Event(p, Json(f1)), fault) ==
            UpdateTask.Handler(t, Event(p, Json(f2)), fault)
  {
    SameRequiredSameMissing(f1, f2);
    if HasRequired(f1) {
      assert UpdateTask.UpdatedAttributes(f1) == UpdateTask.UpdatedAttributes(f2);
    }
  }

  /** Update makes no existence check: on an absent key it succeeds and
      leaves an item holding exactly the key and the three fields. */
  lemma UpdateWithoutExistenceCheck(t: Table, e: Event)
    requires HasTaskId(e.pathParameters) && TaskId(e.pathParameters) !in t
    requires e.body.Json? && HasRequired(e.body.fields)
    ensures var o := UpdateTask.Handler(t, e, None);
            var fields := e.body.fields;
            && o.response.statusCode == 200
            && o.table == t[TaskId(e.pathParameters) := map[TaskIdKey := TaskId(e.pathParameters),
                 "title" := fields["title"], "description" := fields["description"], "status" := fields["status"]]]
  {
    var k := TaskId(e.pathParameters);
    var fields := e.body.fields;
    assert FirstMissing(RequiredFields, fields).None?;
    assert UpdateTask.Handler(t, e, None).table == UpdateTask.Write(t, k, fields);
    assert UpdateTask.Base(t, k) == map[TaskIdKey := k];
    assert map[TaskIdKey := k] + UpdateTask.UpdatedAttributes(fields) ==
      map[TaskIdKey := k, "title" := fields["title"], "description" := fields["description"],
          "status" := fields["status"]];
  }

  /** The SET expression overwrites, so a second identical update changes
      nothing more and answers the same. */
  lemma UpdateIdempotent(t: Table, e: Event)
    ensures var once := UpdateTask.Handler(t, e, None);
            UpdateTask.Handler(once.table, e, None) == once
  {
    var once := UpdateTask.Handler(t, e, None);
    if once.response.statusCode == 200 {
      var k := TaskId(e.pathParameters);
      var fields := e.body.fields;
      assert FirstMissing(RequiredFields, fields).None?;
      assert once == Outcome(Response(200, Item(UpdateTask.UpdatedAttributes(fields))), UpdateTask.Write(t, k, fields));
      UpdateTask.WriteTwice(t, k, fields);
    }
  }

  /** After a successful update, a get of the same key sees the three new
      values and every other attribute of the item as it was. */
  lemma UpdateThenGet(t: Table, e: Event, get: Event)
    requires UpdateTask.Handler(t, e, None).response.statusCode == 200
    requires HasTaskId(get.pathParameters) && TaskId(get.pathParameters) == TaskId(e.pathParameters)
    ensures var r := GetTask.Handler(UpdateTask.Handler(t, e, None).table, get, None);
            && r.statusCode == 200
            && UpdateTask.IsOverwrite(UpdateTask.Base(t, TaskId(e.pathParameters)), r.body.attributes, e.body.fields)
  {
  }

  /** Delete is idempotent: a second delete leaves the same table and gives
      the same answer, 204 when the key was given. */
  lemma DeleteIdempotent(t: Table, e: Event)
    ensures var once := DeleteTask.Handler(t, e, None);
            DeleteTask.Handler(once.table, e, None) == once
  {
  }

  /** After a successful delete, a get of the same key answers 404. */
  lemma DeleteThenGet(t: Table, e: Event, get: Event)
    requires DeleteTask.Handler(t, e, None).response.statusCode == 204
    requires HasTaskId(get.pathParameters) && TaskId(get.pathParameters) == TaskId(e.pathParameters)
    ensures GetTask.Handler(DeleteTask.Handler(t, e, None).table, get, None) == Response(404, Message(NotFound))
  {
  }

  /** The path check precedes every body check in update: without a `taskId`
      the body and the store do not matter. */
  lemma UpdatePathFirst(t: Table, p: PathParameters, b1: Body, b2: Body, fault1: Option<string>, fault2: Option<string>)
    requires MissingTaskId(p)
    ensures UpdateTask.Handler(t, Event(p, b1), fault1) == UpdateTask.Handler(t, Event(p, b2), fault2)
    ensures UpdateTask.Handler(t, Event(p, b1), fault1) == Outcome(BadRequest(TaskIdRequired), t)
  {
  }

  /** The one handler without a path check: where get and update answer 400
      for a missing `taskId`, delete answers the catch-all's 500. */
  lemma DeleteSkipsPathCheck(t: Table, e: Event, fault: Option<string>)
    requires MissingTaskId(e.pathParameters)
    ensures GetTask.Handler(t, e, fault) == BadRequest(TaskIdRequired)
    ensures UpdateTask.Handler(t, e, fault).response == BadRequest(TaskIdRequired)
    ensures var d := DeleteTask.Handler(t, e, fault);
            IsInternalError(d.response) && d.table == t
  {
  }

  /** A body with a title but no description (whatever else it holds): the
      error names the description, the first missing field, and nothing is
      written. */
  lemma CreateReportsFirstMissing(t: Table, fields: map<string, string>, newId: string)
    requires "title" in fields && "description" !in fields
    ensures CreateTask.Handler(t, Event(NoPath, Json(fields)), newId, None) ==
            Outcome(BadRequest("description is required in the body"), t)
  {
    assert FirstMissing(RequiredFields[1..], fields) == Some("description");
    assert FirstMissing(RequiredFields, fields) == Some("description");
    assert FieldRequired("description") == "description is required in the body";
  }

  /** A body with a title and a description but no status: the error names
      the status, and nothing is written. */
  lemma UpdateReportsFirstMissing(t: Table, k: string, fields: map<string, string>)
    requires "title" in fields && "description" in fields && "status" !in fields
    ensures UpdateTask.Handler(t, Event(Path(map[TaskIdKey := k]), Json(fields)), None) ==
            Outcome(BadRequest("status is required in the body"), t)
  {
    assert FirstMissing(RequiredFields[2..], fields) == Some("status");
    assert FirstMissing(RequiredFields[1..], fields) == Some("status");
    assert FirstMissing(RequiredFields, fields) == Some("status");
    assert FieldRequired("status") == "status is required in the body";
  }

  /** Create, get, update, delete and get of one task, from any table. */
  lemma Lifecycle(t: Table, id: string)
    ensures var created := CreateTask.Handler(t, Event(NoPath, Json(map["title" := "Buy milk",
                             "description" := "2%", "status" := "pending"])), id, None);
            var fetched := GetTask.Handler(created.table, Addressing(id), None);
            var updated := UpdateTask.Handler(created.table, Event(Path(map[TaskIdKey := id]),
                             Json(map["title" := "Buy milk", "description" := "2%", "status" := "done"])), None);
            var deleted := DeleteTask.Handler(updated.table, Addressing(id), None);
            var gone := GetTask.Handler(deleted.table, Addressing(id), None);
            && created.response == Response(201, Item(map[TaskIdKey := id, "title" := "Buy milk",
                 "description" := "2%", "status" := "pending"]))
            && fetched == Response(200, created.response.body)
            && updated.response == Response(200, Item(map["title" := "Buy milk", "description" := "2%",
                 "status" := "done"]))
            && deleted.response == Response(204, Empty)
            && gone == Response(404, Message(NotFound))
  {
  }
}
