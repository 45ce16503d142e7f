# Task CRUD handlers, modelled in Dafny

The system is a REST API for "task" records, served by four AWS Lambda
handlers behind API Gateway: `create_task`, `get_task`, `update_task` and
`delete_task`. Each handler takes the gateway event and returns an
HTTP-style response `{statusCode, body}`. It checks its inputs in a fixed
order, then makes at most one call on a DynamoDB table keyed by `taskId`, and
a catch-all turns any unexpected exception into a 500.

The model has these parts:

- `Api` (`api.dfy`) holds the shared vocabulary:
  - the event, as `pathParameters` (absent, null, or a map) and `body` (absent, null, not JSON, or a JSON object);
  - the response, as a status code and a decoded body (`error`, `message`, a stored item, or empty);
  - the table, as `map<string, map<string, string>>`;
  - the handlers' fixed texts;
  - the required-field search `for field in ['title', 'description', 'status']`, written as a recursive function `FirstMissing` and as the loop `FindMissing`.
- `CreateTask`, `GetTask`, `UpdateTask` and `DeleteTask`, one per handler file. Each holds a pure `Handler` function of a table, an event and the store's behaviour. Create, update and delete give the response and the new table; get gives a response only and never writes. The contracts state:
  - the order in which the checks take precedence;
  - the exact error responses;
  - when the call succeeds (as an if-and-only-if);
  - for the three writers, that nothing is written on a failure;
  - for the three writers, that a success touches only the addressed key;
  - what the written or returned item holds.

  A lemma `PreservesInvariants` beside each mutating `Handler` shows that the handler keeps the table invariants.
- `Store` (`task_store.dfy`) is the module-level table as a class `TaskStore` with a `table` field. Each handler is a method on it, written as the source runs: early returns, the search loop, then one assignment to `table`. Each method is proved to agree with its module's `Handler`. `Get` has no `modifies` clause, so it cannot change the table.
- `Properties` (`properties.dfy`) holds what relates several calls:
  - create then get;
  - update then get;
  - delete then get;
  - update and delete are idempotent;
  - update works without an existence check;
  - the path check comes before the body checks;
  - delete falls into the catch-all where get and update answer 400;
  - keys in the body other than the three required ones are ignored;
  - the first-missing-field cases of the tests, for any body that lacks the same fields;
  - a full create/get/update/delete/get lifecycle.

Each `Handler` and method takes as parameters the parts that are not request logic:
- The id `uuid.uuid4()` would draw is the parameter `newId`.
- The store's failure is the parameter `fault: Option<string>`. It holds the message of the `ClientError` the store call would raise. A failed call changes nothing.
- The text of `str(e)` after `"Internal server error: "` is Python's. The model puts the exception's class name there (`KeyError`, `TypeError`), and the contracts state only the prefix.

Some edge cases follow the code:
- A `pathParameters` that is present but null makes `'taskId' not in None` raise. So get and update answer the catch-all's 500 there, not 400.
- A `body` that is null, or the JSON text `null`, makes `json.loads` or the `in` test raise a `TypeError`. So create and update answer 500 there.
- `get_task` treats an empty stored item like a missing one (`if not item`). On a table where every item carries its own key (`WellKeyed`, kept by every handler) this is the same as "no such key".
- `update_task` on a key that is not stored creates an item holding the key and the three fields, as DynamoDB's `update_item` does.

Unlike get and update, delete has no path check: `event['pathParameters']['taskId']` raises and the catch-all answers 500. The model follows the code (`DeleteTask.Handler`, `Properties.DeleteSkipsPathCheck`).

## Model

| member | source | states |
|---|---|---|
| `Api.FirstMissing` | lambda_functions/create_task.py:30-36 | none is found exactly when every required field is in the body; a found field is the first missing one in list order |
| `Api.FirstMissingExact` | lambda_functions/create_task.py:31-36 | only one field can be the first missing one, so the search reports field `f` if and only if `f` is missing and every earlier field is present |
| `Api.FindMissing` | lambda_functions/update_task.py:38-44 | the loop over `required_fields` with early return reports the same field as the search specification |
| `CreateTask.Handler` | lambda_functions/create_task.py:11-73 | 400 "Body is required", 500 for a null body, 400 "Invalid JSON in request body", 400 "<first missing field> is required in the body", 500 "Error saving task: <msg>", in that precedence; 201 if and only if the body is an object with all three fields and the put succeeds; no write unless 201; on 201 the new id maps to exactly `{taskId, title, description, status}` from the body, every other key is unchanged, and the response body is the written item |
| `GetTask.Handler` | lambda_functions/get_task.py:10-54 | 400 "taskId is required in pathParameters" when the parameters or the key are absent, whatever the table; 500 for null parameters; 500 "Error retrieving task: <msg>" on a store failure; otherwise 200 if and only if a non-empty item is stored, with that item verbatim as the body, else 404 "Task not found"; on a well-keyed table 404 exactly when the key is absent |
| `UpdateTask.WriteOverwrites` | lambda_functions/update_task.py:48-61 | the SET expression writes the three body values into the addressed item (a new one holding only the key if none is stored), keeps every other attribute including `taskId`, leaves every other key alone, and UPDATED_NEW returns exactly the three written attributes |
| `UpdateTask.WriteTwice` | lambda_functions/update_task.py:52-60 | setting the same three values a second time leaves the table the first write left |
| `UpdateTask.Handler` | lambda_functions/update_task.py:10-80 | the path check comes before the body checks; then the same body errors as create, then 500 "Error updating task: <msg>"; 200 if and only if the key is given, the body has the three fields and the store call succeeds, whether or not the key was stored; no write unless 200; on 200 only the addressed item changes, it holds the new values and every other attribute it had (or only its key, if it was new), and the body is exactly the three updated attributes |
| `CreateTask.PreservesInvariants` | lambda_functions/create_task.py:43-50 | if every item carries its own key as `taskId`, or every item holds the three required attributes, the same holds after create |
| `UpdateTask.PreservesInvariants` | lambda_functions/update_task.py:48-61 | the same two invariants hold after update, which keeps `taskId` and sets the required attributes |
| `DeleteTask.PreservesInvariants` | lambda_functions/delete_task.py:15-20 | the same two invariants hold after delete, which only removes an item |
| `DeleteTask.Handler` | lambda_functions/delete_task.py:10-39 | never 400: missing or null `pathParameters`, or parameters without `taskId`, give the catch-all 500 with the table unchanged; 500 "Error deleting task: <msg>" on a store failure; otherwise 204 with an empty body whether or not the key was stored, the key is absent afterwards and every other key is unchanged |
| `Store.TaskStore.constructor` | lambda_functions/create_task.py:7-8 | the store object starts out holding the given table, which must be well keyed, and is `Valid` |
| `Store.TaskStore.Create` | lambda_functions/create_task.py:11-73 | the imperative handler, with the search loop and a single assignment to `table`, returns and leaves exactly what `CreateTask.Handler` describes, and keeps `Valid`, the well-keyed table invariant it requires |
| `Store.TaskStore.Get` | lambda_functions/get_task.py:10-54 | on a well-keyed table, returns what `GetTask.Handler` describes and modifies nothing |
| `Store.TaskStore.Update` | lambda_functions/update_task.py:10-80 | returns and leaves exactly what `UpdateTask.Handler` describes, and keeps `Valid`, the well-keyed table invariant it requires |
| `Store.TaskStore.Delete` | lambda_functions/delete_task.py:10-39 | returns and leaves exactly what `DeleteTask.Handler` describes, and keeps `Valid`, the well-keyed table invariant it requires |
| `Properties.CreateThenGet` | lambda_functions/create_task.py:43-66 | after a successful create with id `k`, a get of `k` answers 200 with the item create returned: `taskId` is `k` and the title, description and status are the body's |
| `Properties.SameRequiredSameMissing` | lambda_functions/create_task.py:30-36 | fields are checked for presence only: bodies that agree on the required fields find the same first missing field |
| `Properties.CreateIgnoresExtraKeys` | lambda_functions/create_task.py:43-50 | bodies that agree on the three required fields give the same response and the same table; other keys are neither checked nor stored |
| `Properties.UpdateIgnoresExtraKeys` | lambda_functions/update_task.py:56-60 | the same for update, so a body's `taskId` or other keys change nothing |
| `Properties.UpdateWithoutExistenceCheck` | lambda_functions/update_task.py:46-62 | updating an absent key succeeds with 200 and leaves exactly `{taskId, title, description, status}` under it |
| `Properties.UpdateIdempotent` | lambda_functions/update_task.py:52-60 | a second identical update gives the same response and the same table as the first |
| `Properties.UpdateThenGet` | tests/unit/test_update_task.py:74-81 | after a successful update a get of the key sees the new values and the item's other attributes as they were |
| `Properties.DeleteIdempotent` | lambda_functions/delete_task.py:15-32 | deleting twice leaves the same table as deleting once, with the same response (204 when the key is given) |
| `Properties.DeleteThenGet` | tests/unit/test_delete_task.py:60-64 | after a successful delete a get of the key answers 404 "Task not found" |
| `Properties.UpdatePathFirst` | lambda_functions/update_task.py:13-26 | without a `taskId`, update answers 400 "taskId is required in pathParameters" and writes nothing, whatever the body and the store |
| `Properties.DeleteSkipsPathCheck` | lambda_functions/delete_task.py:12 | for the same event without a `taskId`, get and update answer 400 but delete answers the catch-all 500, and the table is unchanged |
| `Properties.CreateReportsFirstMissing` | tests/unit/test_create_task.py:50-63 | any body with a title but no description gives 400 "description is required in the body" and no write |
| `Properties.UpdateReportsFirstMissing` | tests/unit/test_update_task.py:148-170 | any body with a title and a description but no status gives 400 "status is required in the body" and no write |
| `Properties.Lifecycle` | lambda_functions/get_task.py:36-47 | from any table: create gives 201 with the new item, get gives 200 with the same item, update gives 200 with the three new values, delete gives 204, and a final get gives 404 |

## Left out

- Infrastructure (the CDK stack, the IAM role, the gateway wiring and the gateway's JSON-schema check of bodies) is not request logic. The handlers do not rely on it, and neither does the model.
- The startup read of `TASKS_TABLE_NAME` and the boto3 client set-up are process configuration.
- DynamoDB is modelled only as the map plus an optional failure message. Its expression language, the structure of `ClientError` and its message texts are not modelled. The model does not say when DynamoDB fails: an empty-string key, say, or a deleted table.
- Failures of the store client other than `ClientError` (connection errors from botocore, for one) reach the catch-all in the source. The model has no separate input for them.
- `json.loads` and `json.dumps` are modelled only by their outcome: a decoded object, text that does not decode, or null. A JSON body that is a list, a string or a number is left out, because the handlers' `in` test then follows Python's membership rules for that type. Attribute values are modelled as strings, not as arbitrary JSON values. Outside that, the source behaves differently:
  - A numeric value such as `"status": 1` is written by `update_item`. DynamoDB returns it as a `Decimal`, and `json.dumps` of the attributes fails on it (lambda_functions/update_task.py:70-73). The catch-all then answers 500 after the write.
  - For the same reason, get of such an item answers 500 (lambda_functions/get_task.py:44-47), so create then get no longer agree.
  - A float value makes boto3's serialiser raise `TypeError` before any write, giving a 500.
- The text of `str(e)` in the catch-all is Python's exception formatting. Only the `"Internal server error: "` prefix is modelled.
- `uuid.uuid4()` is a parameter. Uniqueness of ids is not modelled: a create with an id already in the table overwrites the item, as `put_item` does.
- The Lambda `context` argument is never read by the handlers.
- Concurrent requests are not modelled. Each handler is a single atomic step on the table.
