/** The module-level `table` the four handlers share, as an object, and each
    handler as a method on it that checks its inputs in the source's order and
    then makes at most one store call. Each method is proved to do exactly
    what its module's `Handler` function describes. */
module Store {
  import opened Api
  import CreateTask
  import GetTask
  import UpdateTask
  import DeleteTask

  class TaskStore {
    var table: Table

    ghost predicate Valid()
      reads this
    {
      WellKeyed(table)
    }

    /** DynamoDB stores every item under its own key, so the table the
        handlers start from is well keyed. */
    constructor (initial: Table)
      requires WellKeyed(initial)
      ensures table == initial
      ensures Valid()
    {
      table := initial;
    }

    /** `create_task.handler`; `newId` is the id `uuid4` draws. */
    method Create(e: Event, newId: string, fault: Option<string>) returns (r: Response)
      requires Valid()
      modifies this
      ensures Outcome(r, table) == CreateTask.Handler(old(table), e, newId, fault)
      ensures Valid()
    {
      CreateTask.PreservesInvariants(table, e, newId, fault);
      if e.body.NoBody? {
        return BadRequest(BodyRequired);
      }
      if e.body.NullBody? {
        return Internal("TypeError");
      }
      if e.body.Malformed? {
        return BadRequest(InvalidJson);
      }
      var fields := e.body.fields;
      var missing := FindMissing(RequiredFields, fields);
      if missing.Some? {
        return BadRequest(FieldRequired(missing.value));
      }
      var task := CreateTask.NewTask(newId, fields);
      if fault.Some? {
        return StoreFailure(SavePrefix, fault.value);
      }
      table := table[newId := task];
      return Response(201, Item(task));
    }

    /** `get_task.handler`: reads the table and changes nothing. */
    method Get(e: Event, fault: Option<string>) returns (r: Response)
      requires Valid()
      ensures r == GetTask.Handler(table, e, fault)
    {
      if e.pathParameters.NoPath? {
        return BadRequest(TaskIdRequired);
      }
      if e.pathParameters.NullPath? {
        return Internal("TypeError");
      }
      if TaskIdKey !in e.pathParameters.values {
        return BadRequest(TaskIdRequired);
      }
      var taskId := e.pathParameters.values[TaskIdKey];
      if fault.Some? {
        return StoreFailure(RetrievePrefix, fault.value);
      }
      if taskId !in table || table[taskId] == map[] {
        return Response(404, Message(NotFound));
      }
      return Response(200, Item(table[taskId]));
    }

    /** `update_task.handler`: no existence check before the write. */
    method Update(e: Event, fault: Option<string>) returns (r: Response)
      requires Valid()
      modifies this
      ensures Outcome(r, table) == UpdateTask.Handler(old(table), e, fault)
      ensures Valid()
    {
      UpdateTask.PreservesInvariants(table, e, fault);
      if e.pathParameters.NoPath? {
        return BadRequest(TaskIdRequired);
      }
      if e.pathParameters.NullPath? {
        return Internal("TypeError");
      }
      if TaskIdKey !in e.pathParameters.values {
        return BadRequest(TaskIdRequired);
      }
      var taskId := e.pathParameters.values[TaskIdKey];
      if e.body.NoBody? {
        return BadRequest(BodyRequired);
      }
      if e.body.NullBody? {
        return Internal("TypeError");
      }
      if e.body.Malformed? {
        return BadRequest(InvalidJson);
      }
      var fields := e.body.fields;
      var missing := FindMissing(RequiredFields, fields);
      if missing.Some? {
        return BadRequest(FieldRequired(missing.value));
      }
      if fault.Some? {
        return StoreFailure(UpdatePrefix, fault.value);
      }
      var attributes := UpdateTask.UpdatedAttributes(fields);
      var item := if taskId in table then table[taskId] else map[TaskIdKey := taskId];
      table := table[taskId := item + attributes];
      return Response(200, Item(attributes));
    }

    /** `delete_task.handler`: no path check; the lookup's failure is caught
        by the catch-all. */
    method Delete(e: Event, fault: Option<string>) returns (r: Response)
      requires Valid()
      modifies this
      ensures Outcome(r, table) == DeleteTask.Handler(old(table), e, fault)
      ensures Valid()
    {
      DeleteTask.PreservesInvariants(table, e, fault);
      if !e.pathParameters.Path? {
        return Internal(if e.pathParameters.NoPath? then "KeyError" else "TypeError");
      }
      if TaskIdKey !in e.pathParameters.values {
        return Internal("KeyError");
      }
      var taskId := e.pathParameters.values[TaskIdKey];
      if fault.Some? {
        return StoreFailure(DeletePrefix, fault.value);
      }
      table := table - {taskId};
      return Response(204, Empty);
    }
  }
}
