# schedule-agent core, in Dafny

This project models the core of a schedule assistant. A user talks to an agent, and the agent
reads and changes that user's calendar through a small set of tools. The model has four layers.

- **Schedule store** (`db_op.dfy`, with `schedules.dfy` for the table and SQL semantics).
  - The `schedules` table is a sequence of rows `(id, user_id, title, description, date, time)`,
    with an auto-increment counter.
  - `DatabaseConnection` is a class with the driver handles as fields. `Enter` and `Exit` model
    `__enter__` and `__exit__`: commit when the block succeeded, roll back when it raised,
    then always close the cursor and the connection.
  - `UnitOfWork` runs one statement inside such a connection and catches `pymysql.MySQLError`.
  - The six schedule operations and the user lookup are module-level methods that take the shared
    `Database` object and update its tables.
  - Each method is proved equal to a pure function of the old tables. The async interfaces
    call their synchronous versions directly, with the same arguments.
  - Storage errors are a `Fault` parameter. It says where the error is raised: connect,
    execute (with or without a failing rollback), or commit.
- **Token check** (`security.dfy`). `get_user_id_from_token` decodes a JSON Web Token (RFC 7519)
  with HS256 (section 3.2 of RFC 7518) and the configured secret.
  - `jwt.decode` is the parameter `decode`: the payload, or nothing when PyJWT raises.
  - The identity is the `sub` claim.
  - The existence check is modelled as written. It calls the async `get_user_from_db` without
    `await`, so it holds a coroutine object, never `None`, and never rejects.
- **Tools** (`calendar_mcp.dfy`).
  - Every data tool derives the user id from the token with `int(...)` and gives only that id
    to the store.
  - List results become dicts keyed by column name, built in a loop (`RowsToDicts`).
  - Boolean results become fixed reply texts.
  - `ToolSpec` gives the meaning of every tool call. No `ToolCall` carries a user id.
- **Conversation** (`client.dfy`).
  - `ScheduleAgent` keeps `chat_history_dict`, a map from session key to message history.
  - `chat_with_agent` creates an empty history for an unseen key. It then reads and extends the
    history stored under `f"{session_id}"`, which is the text `"None"` when the session id is
    `None`.
  - The agent is a parameter: a function from input and history to a reply, or nothing when it
    raises.
  - An exception raised while leaving the `ClientSession` and `stdio_client` blocks reaches the
    caller even after the history has been extended.
  - `main`'s interactive loop and its exit test are modelled over the sequence of typed queries.

`py_text.dfy` gives the Python built-ins these layers use:
- `str.strip()` with Python's white-space set;
- `str.lower()` on ASCII;
- `int(str)`, with a round trip from `str(int)`.

Three behaviours of the code are kept as written:
- the existence check (app/common/security.py:33-35) cannot reject: it tests a coroutine object,
  never `None`;
- the listing SQL has no `ORDER BY` (app/backend/tools/db_op.py:63, 82), so the listing lemmas
  state membership only;
- the router passes `request.session_id`, which may be `None` (app/routers/chat_router.py:26),
  and the model keeps that case.

## Model

| member | source | states |
|---|---|---|
| Schedules.AsTuple | app/backend/tools/db_op.py:63-68 | defines a row as `SELECT *` returns it: `(id, user_id, title, description, date, time)`, with `NULL` for an absent description or time; its first two columns are the row's id and user id |
| Schedules.Matches | app/backend/tools/db_op.py:121 | defines the `WHERE` conditions the store uses: `user_id = %s`, `user_id = %s AND date = %s`, and `user_id = %s AND id = %s` (lines 63, 82, 121, 141, 161 and 174) |
| Schedules.Keep | app/backend/tools/db_op.py:121-125 | defines filtering the table by a `WHERE` condition, keeping storage order: the matching rows for a `SELECT`, the non-matching rows that survive a `DELETE`; never longer than the table |
| Schedules.Project | app/backend/tools/db_op.py:67-68 | defines what `fetchall()` returns after a `SELECT *`: each selected row's tuple, one per row |
| Schedules.IdTuples | app/backend/tools/db_op.py:165-166 | defines what `fetchall()` returns after `SELECT id`: a one-column tuple `(id,)` per selected row |
| Schedules.UserTuples | app/backend/tools/db_op.py:195-200 | defines `SELECT * FROM users WHERE id = %s`: each user with that id, as its id followed by its other columns |
| Schedules.NewRow | app/backend/tools/db_op.py:101-105 | defines the row the `INSERT` adds: the next auto-increment id, the user id, and the given title, description, date and time |
| Schedules.Run | app/backend/tools/db_op.py:63-200 | defines executing each statement and what `fetchall()` then returns: the two `SELECT *` queries (63-68, 82-87) and `SELECT id` (161-166) leave the tables unchanged and return the selected rows' tuples; the `INSERT` (101-105) appends the new row and advances the counter; each `DELETE` (121-125, 141-145, 174-178) keeps exactly the rows its condition rejects; the users query (195-200) returns the matching users |
| Schedules.ProjectDistinct | app/backend/tools/db_op.py:63-68 | rows with distinct ids give distinct fetched tuples |
| Schedules.RowOfTuple | app/backend/tools/db_op.py:63-68 | a result tuple that reads back as a row is exactly that row's `SELECT *` tuple |
| Schedules.RowOfTupleAsTuple | app/backend/tools/db_op.py:63-68 | a stored row is recovered from the tuple `fetchall()` returns for it |
| Schedules.KeepMembers | app/backend/tools/db_op.py:63-67 | a `WHERE` filter keeps exactly the rows of the table that satisfy (or, for a delete, fail) the condition |
| Schedules.ProjectMembers | app/backend/tools/db_op.py:63-68 | a selected row's tuple is in the result exactly when the row was selected, and every tuple in the result reads back as a selected row |
| Schedules.KeepUniqueIds | app/backend/tools/db_op.py:119-130 | deleting rows keeps the ids of the remaining rows distinct |
| Schedules.RunWellKeyed | app/backend/tools/db_op.py:99-110 | every statement keeps the ids distinct and below the auto-increment counter, and never lowers the counter |
| Schedules.KeepPartition | app/backend/tools/db_op.py:119-130 | the rows a delete removes and the rows it keeps together make up the whole table |
| Schedules.KeepIdempotent | app/backend/tools/db_op.py:119-130 | running the same delete a second time removes nothing more |
| Schedules.DeleteKeepsOthers | app/backend/tools/db_op.py:119-150 | a delete for one user leaves all other users' rows exactly as they were, in order |
| Schedules.DeleteSparesOtherUser | app/backend/tools/db_op.py:119-183 | a delete for user `u` leaves any other user's rows unchanged, in order |
| Schedules.KeepAppend | app/backend/tools/db_op.py:99-110 | filtering a table with rows appended is the same as filtering the old rows and the new rows separately |
| Schedules.KeepNone | app/backend/tools/db_op.py:119-130 | when no row meets the condition, a select finds nothing |
| Schedules.DeleteThenSelectEmpty | app/backend/tools/db_op.py:119-130 | after a delete, selecting with the same condition finds no row |
| Schedules.PointMatchesAtMostOne | app/backend/tools/db_op.py:174-175 | with distinct ids, `user_id = u AND id = i` matches at most one row |
| Schedules.PointDeleteRemovesOne | app/backend/tools/db_op.py:174-180 | when such a row exists, that delete removes exactly one row |
| Schedules.IdTuplesMembers | app/backend/tools/db_op.py:161-171 | `(schedule_id,)` is among the fetched ids exactly when a selected row has that id |
| Schedules.UserTuplesMatch | app/backend/tools/db_op.py:193-200 | `WHERE id = %s` on `users` is exact: every row returned has the requested id in its first column, every user with that id is returned, and a missing user gives no row |
| DbOp.Transact | app/backend/tools/db_op.py:65-71 | defines one statement run inside a connection block: its new tables and fetched rows without a fault, the old tables and no rows with one |
| DbOp.AllSchedulesOf | app/backend/tools/db_op.py:61-71 | defines list-all as the `SELECT` by `user_id` run as a unit of work, `()` when it fails |
| DbOp.SchedulesOn | app/backend/tools/db_op.py:80-90 | defines list-by-date as the `SELECT` by `user_id` and `date`, `()` when it fails |
| DbOp.AddOutcome | app/backend/tools/db_op.py:99-110 | defines the add as the `INSERT` run as a unit of work; the flag says whether it succeeded |
| DbOp.RemoveByDateOutcome | app/backend/tools/db_op.py:119-130 | defines the delete by user and date as a unit of work; the flag says whether it succeeded |
| DbOp.RemoveByUserOutcome | app/backend/tools/db_op.py:139-150 | defines the delete by user as a unit of work; the flag says whether it succeeded |
| DbOp.RemoveByIdOutcome | app/backend/tools/db_op.py:159-183 | defines the delete by id: the ownership query, False when it fails or lacks the id, else the delete filtered on user and id |
| DbOp.UserRowsOf | app/backend/tools/db_op.py:193-203 | defines the user lookup as the `SELECT` on `users` by id, `()` when it fails |
| DbOp.DatabaseConnection.constructor | app/backend/tools/db_op.py:27-30 | a new connection object has no connection, no cursor and has made no driver calls |
| DbOp.DatabaseConnection.Enter | app/backend/tools/db_op.py:32-39 | a failed connect leaves both handles unset; otherwise both are open and the transaction sees the current tables |
| DbOp.DatabaseConnection.Execute | app/backend/tools/db_op.py:66-68 | a failing execute changes nothing; otherwise the transaction's tables and fetched rows are those of the statement |
| DbOp.DatabaseConnection.Exit | app/backend/tools/db_op.py:41-54 | never suppresses the exception; does nothing without a connection; otherwise rolls back exactly when an exception occurred and commits exactly when none did, then closes the cursor and the connection even when that call raised; the store receives the transaction only on a commit that succeeded |
| DbOp.UnitOfWork | app/backend/tools/db_op.py:65-71 | one statement as all or nothing: its rows and new tables without a fault, the old tables and no rows with one |
| DbOp.SyncGetAllSchedulesByUserid | app/backend/tools/db_op.py:61-71 | leaves the tables unchanged and returns the user's rows, or `()` on a storage error |
| DbOp.SyncGetSchedulesByData | app/backend/tools/db_op.py:80-90 | leaves the tables unchanged and returns the user's rows on that date, or `()` on a storage error |
| DbOp.SyncAddSchedule | app/backend/tools/db_op.py:99-110 | new tables and returned flag are those of the insert as a unit of work |
| DbOp.SyncRemoveScheduleByDate | app/backend/tools/db_op.py:119-130 | new tables and flag are those of the delete by user and date |
| DbOp.SyncRemoveScheduleByUserid | app/backend/tools/db_op.py:139-150 | new tables and flag are those of the delete by user |
| DbOp.SyncRemoveScheduleById | app/backend/tools/db_op.py:159-183 | ownership query first: False if it fails or the id is not among the user's ids; otherwise the flag of the delete filtered on both user and id |
| DbOp.SyncGetUserFromDb | app/backend/tools/db_op.py:193-203 | leaves the tables unchanged and returns the matching `users` rows, or `()` on a storage error, never `None` |
| DbOp.GetAllSchedulesByUserid | app/backend/tools/db_op.py:73-78 | returns exactly what the synchronous version returns for the same argument |
| DbOp.GetSchedulesByData | app/backend/tools/db_op.py:92-97 | returns exactly what the synchronous version returns, arguments in the same order |
| DbOp.AddSchedule | app/backend/tools/db_op.py:112-117 | returns exactly what the synchronous version returns, arguments in the same order |
| DbOp.RemoveScheduleByDate | app/backend/tools/db_op.py:132-137 | returns exactly what the synchronous version returns, arguments in the same order |
| DbOp.RemoveScheduleByUserid | app/backend/tools/db_op.py:152-157 | returns exactly what the synchronous version returns for the same argument |
| DbOp.RemoveScheduleById | app/backend/tools/db_op.py:185-191 | returns exactly what the synchronous version returns, `schedule_id` before `userid` |
| DbOp.GetUserFromDb | app/backend/tools/db_op.py:205-210 | returns exactly what the synchronous version returns for the same argument |
| DbOp.AllSchedulesExact | app/backend/tools/db_op.py:61-71 | list-all returns exactly the rows whose `user_id` is the user's (membership, no order promised), each once when ids are distinct, and `()` on a storage error |
| DbOp.SchedulesOnExact | app/backend/tools/db_op.py:80-90 | list-by-date returns exactly the rows matching both user and date, each once when ids are distinct, and `()` on a storage error |
| DbOp.AddInsertsFreshRow | app/backend/tools/db_op.py:99-110 | True exactly without a storage error; then exactly one row is appended, carrying the given fields under an id no existing row has; on an error the tables are unchanged; ids stay distinct |
| DbOp.AddThenList | app/backend/tools/db_op.py:99-110 | after an add, the user's listing gains the new row and every other user's listing is unchanged |
| DbOp.RemoveByDateExact | app/backend/tools/db_op.py:119-130 | True exactly without a storage error, whether or not rows matched; removes exactly the user's rows on that date, after which none is listed; unchanged tables on error |
| DbOp.RemoveByDateIdempotent | app/backend/tools/db_op.py:119-130 | repeating the delete by date changes nothing and again returns True |
| DbOp.RemoveByUserExact | app/backend/tools/db_op.py:139-150 | True exactly without a storage error; removes exactly the user's rows; unchanged tables on error |
| DbOp.RemoveByUserIdempotent | app/backend/tools/db_op.py:139-150 | repeating the delete by user changes nothing and again returns True |
| DbOp.RemoveByIdOwnership | app/backend/tools/db_op.py:159-183 | True exactly when both units of work succeed and the user owns a row with that id; then exactly that one row is removed; otherwise the tables are unchanged |
| DbOp.ForeignIdNeverRemoved | app/backend/tools/db_op.py:171-175 | an id belonging to another user is never deleted: False and unchanged tables |
| DbOp.OtherUsersUntouched | app/backend/tools/db_op.py:119-183 | none of the three deletes of one user changes what another user lists |
| DbOp.UserRowsMatch | app/backend/tools/db_op.py:193-203 | the user lookup returns only rows with the requested id; without a storage error it returns every user with that id and `()` for a missing user; on a storage error it returns `()` |
| Security.GetUserIdFromToken | app/common/security.py:19-37 | accepts exactly when the token decodes under HS256 with the configured secret and `sub` is present and not null; the identity is exactly the `sub` claim; every rejection is the 401 "Could not validate credentials" error with a Bearer challenge; the existence check never rejects |
| Security.PayloadGet | app/common/security.py:27 | defines `payload.get("sub")`: the claim under the key, or `None` when the key is missing |
| Security.UnawaitedGetUserFromDb | app/common/security.py:33-35 | calling the async lookup without `await` yields a pending coroutine, never `None`, whatever the id |
| Security.OnlyConfiguredKeyAndAlgorithm | app/common/security.py:9-26 | only the decode with the configured secret and `["HS256"]` is consulted: decoders that agree on it give the same verdict |
| PyText.Strip | app/backend/client.py:71 | defines `str.strip()`: the text between the leading and the trailing white space |
| PyText.ParseInt | app/backend/mcp_services/calendar_mcp.py:25 | defines `int(str)` on ASCII decimal digits: optional sign and digits with single underscores, surrounded by white space; any other ASCII text is `ValueError` |
| PyText.LeadingSpaces | app/backend/client.py:71 | counts exactly the leading white space that `strip()` removes |
| PyText.TrailingSpaces | app/backend/client.py:71 | counts exactly the trailing white space that `strip()` removes |
| PyText.StripTrimmed | app/backend/client.py:71 | a stripped string neither starts nor ends with white space |
| PyText.StripSplits | app/backend/client.py:71 | a string is its stripped text with only white space before and after it |
| PyText.StripPadded | app/backend/client.py:71 | stripping white space from around a trimmed word gives the word back |
| PyText.Lower | app/backend/client.py:71 | lower-casing keeps the length |
| PyText.ShowNatDigits | app/backend/mcp_services/calendar_mcp.py:25 | the decimal text of a natural number is digits only, and reads back as that number |
| PyText.ParseShowInt | app/backend/mcp_services/calendar_mcp.py:25 | `int(str(n)) == n` for every integer `n` |
| CalendarMcp.PyInt | app/backend/mcp_services/calendar_mcp.py:25 | defines `int()` of the `sub` claim: strings through `int(str)`, booleans as 0 and 1, floats truncated, `None` a `TypeError` |
| CalendarMcp.DeriveUserId | app/backend/mcp_services/calendar_mcp.py:25 | defines the tools' user id: the token check's 401 error, or `int()` of the `sub` it returns |
| CalendarMcp.DeriveUserIdOfToken | app/backend/mcp_services/calendar_mcp.py:25 | a token whose `sub` is the decimal text of an id yields exactly that id |
| CalendarMcp.DeriveUserIdRejects | app/backend/mcp_services/calendar_mcp.py:25 | the tool raises the 401 credentials error exactly when the token does not decode or has no `sub` |
| CalendarMcp.RowToDict | app/backend/mcp_services/calendar_mcp.py:29-35 | defines the dict of one row: the six column names paired with the row's first six values |
| CalendarMcp.RowDictRoundTrip | app/backend/mcp_services/calendar_mcp.py:28-35 | keys `schedule_id, user_id, title, description, date, time` take row positions 0 to 5, and the dict's values read back as the stored row |
| CalendarMcp.RowsToDicts | app/backend/mcp_services/calendar_mcp.py:27-37 | one dict per row, in row order, each the row's dict |
| CalendarMcp.GetTodayTool | app/backend/mcp_services/calendar_mcp.py:8-15 | returns the clock's date; it has no token parameter and no access to the store |
| CalendarMcp.McpGetAllSchedulesByUserid | app/backend/mcp_services/calendar_mcp.py:17-37 | new tables and reply are those of the list-all tool for the identity the token yields |
| CalendarMcp.McpGetSchedulesByData | app/backend/mcp_services/calendar_mcp.py:39-61 | new tables and reply are those of the list-by-date tool for the identity the token yields |
| CalendarMcp.McpAddSchedule | app/backend/mcp_services/calendar_mcp.py:63-80 | new tables and reply are those of the add tool for the identity the token yields |
| CalendarMcp.McpRemoveScheduleByDate | app/backend/mcp_services/calendar_mcp.py:82-96 | new tables and reply are those of the delete-by-date tool for the identity the token yields |
| CalendarMcp.McpRemoveScheduleByUserid | app/backend/mcp_services/calendar_mcp.py:98-111 | new tables and reply are those of the delete-by-user tool for the identity the token yields |
| CalendarMcp.McpRemoveScheduleByScheduleId | app/backend/mcp_services/calendar_mcp.py:113-128 | new tables and reply are those of the delete-by-id tool for the identity the token yields |
| CalendarMcp.ToolSpec | app/backend/mcp_services/calendar_mcp.py:8-128 | defines every tool call: `get_today` returns the date; the others raise the identity error or run the matching store operation for the derived id and turn its result into the reply |
| CalendarMcp.ToolChangesOnlyWithIdentity | app/backend/mcp_services/calendar_mcp.py:25-26 | only a write tool with a verified identity changes the tables; without one, every data tool raises that error and touches nothing; `get_today` needs no identity |
| CalendarMcp.ToolIsolation | app/backend/mcp_services/calendar_mcp.py:63-128 | whatever tool a user calls, what every other user lists is unchanged |
| CalendarMcp.ListToolExact | app/backend/mcp_services/calendar_mcp.py:17-37 | each returned dict reads back as one of the caller's stored rows, and without a storage error every such row has its dict |
| CalendarMcp.ListByDateToolExact | app/backend/mcp_services/calendar_mcp.py:39-61 | the same for the caller's rows on the given date |
| CalendarMcp.WriteToolReplies | app/backend/mcp_services/calendar_mcp.py:75-111 | "日程添加成功" / "Successfully deleted" exactly when no storage error occurred, "日程添加失败" / "Unsuccessful deleted" otherwise |
| CalendarMcp.RemoveByIdToolReply | app/backend/mcp_services/calendar_mcp.py:122-128 | "Successfully deleted" exactly when the caller owns that id and storage succeeded; "The user does not have a relevant plan ID" for ownership failure and storage error alike |
| Client.FString | app/backend/client.py:151-153 | `f"{session_id}"` is the session id itself for a string and the text "None" for `None` |
| Client.ScheduleAgent.constructor | app/backend/client.py:82-88 | a fresh agent has nothing built and an empty session map |
| Client.SessionTurn | app/backend/client.py:147-155 | defines the body of the `async with` blocks: create an empty history for an unseen key, call the agent with the history under `f"{session_id}"`, append input and reply on success |
| Client.ChatTurn | app/backend/client.py:139-155 | defines one call: nothing happens when entering the blocks fails; an exception on leaving them replaces the body's result but keeps its histories |
| Client.ScheduleAgent.ChatWithAgent | app/backend/client.py:139-155 | the new session map and the result are those of one conversation turn, including a failure when leaving the blocks; a successful setup stores the loaded tools, the prompt and the executor built from them |
| Client.ChatTurnReply | app/backend/client.py:147-155 | on success the agent received the history as it stood before the turn, the reply is returned, and that history grows by exactly the raw input and then the reply |
| Client.ChatTurnFrame | app/backend/client.py:147-154 | only the session's own entries change; no existing history is replaced, only extended |
| Client.ChatTurnRaised | app/backend/client.py:148-154 | a turn that raises on entering the blocks or inside them appends nothing and can only have created an empty entry for an unseen session id |
| Client.TeardownFailureKeepsExchange | app/backend/client.py:140-155 | when leaving the blocks raises, the caller sees that exception, yet after an agent reply the exchange has been appended all the same |
| Client.TokenNeverStored | app/backend/client.py:150-154 | every stored message was there before, or is the raw input, or is an answer the agent gave to this turn: the token-bearing input is never stored |
| Client.NoneSessionKey | app/backend/client.py:147-153 | with session id `None` the turn raises KeyError unless a session "None" exists, and then it reads and extends that session's history |
| Client.ChatTurnKeepsPairs | app/backend/client.py:153-154 | every turn keeps every history alternating user message, agent reply |
| Client.IsExitCommand | app/backend/client.py:71 | defines the exit test: the stripped, lower-cased query is "exit" or "quit" |
| Client.ExitCommandAccepts | app/backend/client.py:70-72 | "exit" or "quit" in any letter case, with any surrounding white space, ends the loop |
| Client.ExitCommandShape | app/backend/client.py:70-72 | only such a query ends the loop |
| Client.Converse | app/backend/client.py:69-77 | defines `main`'s loop: stop when input runs out, on an exit command or when the agent raises; otherwise record the query and the reply and read on |
| Client.ConverseKeepsPairs | app/backend/client.py:69-77 | the loop's history stays alternating |
| Client.ConverseCounts | app/backend/client.py:69-77 | each query read before the loop stops adds exactly one exchange; without an early stop every query is read |
| Client.ConverseStopsAtExit | app/backend/client.py:69-77 | the loop stops at the first exit command and at no other query |
| Client.InteractiveLoop | app/backend/client.py:66-77 | the loop over the typed queries, starting from an empty history, ends as the conversation function says |

## Left out

- Language model and agent machinery: the prompt text, `hub.pull`, `create_tool_calling_agent` and `AgentExecutor`. The agent's answer is a function parameter.
- MCP stdio transport and tool registration (`stdio_client`, `ClientSession`, `load_mcp_tools`, `FastMCP`, `mcp.run`). These are process I/O. A successful start is the `loadedTools` parameter, and a successful exit from the `async with` blocks the `teardownOk` parameter.
- Thread pool bridge (`run_in_executor`): the async interfaces are direct sequential calls, and concurrent calls are not modelled.
- Concurrent conversation turns: one process-wide `ScheduleAgent` (app/backend/client.py:163) serves every request of the router (app/routers/chat_router.py:17, 26), so turns of the same session can interleave at each `await`, and the history list handed to the agent (app/backend/client.py:151) is the stored one, not a copy. Nothing serializes turns per session; the model runs each turn alone, so the pairing lemmas hold only for turns that do not overlap.
- Column types: `date` and `time` are stored, compared and returned as strings. MySQL converts a `DATE` column and pymysql returns `datetime.date` and `datetime.timedelta` values; those conversions, and the date formats MySQL accepts, are not modelled.
- The MySQL engine, network and driver. The tables are in memory. Storage errors are the `Fault` parameter rather than nondeterminism. Only `pymysql.MySQLError` is modelled.
- DbOp.UnitOfWork: a failed commit is taken to apply nothing, and a rolled-back insert also rolls back the auto-increment counter. InnoDB keeps the counter, so the model's ids are fresh but not necessarily the engine's exact values.
- DbOp.DatabaseConnection.Enter: `connection.cursor()` raising inside `__enter__` is merged with a failed connect. In the source the connection opened just before it is then left open.
- Row order: the tables keep storage order. The list lemmas state membership only, because the SQL has no `ORDER BY`.
- JSON Web Token cryptography: `jwt.decode` is a function parameter, so signature checking, expiry and claim validation are whatever that function does.
- `get_user_token` returns its argument; it is FastAPI dependency wiring and has no behaviour to state.
- Security.GetUserIdFromToken: the coroutine that the existence check creates is never run, so no database access and no "never awaited" warning are modelled.
- CalendarMcp.PyInt: `int()` of a string reads ASCII digits, an optional sign, single underscores and surrounding white space. Other Unicode decimal digits and the limit on digit count are not modelled. Float claims truncate toward zero; NaN and infinity claims are not modelled.
- PyText.ParseInt: reads ASCII decimal digits only. Python's `int()` also accepts other Unicode decimal digits (for example Arabic-Indic digits), which the model rejects as `ValueError`; the limit on digit count is not modelled either.
- PyText.Lower: lower-cases ASCII letters only. For the exit test this is exact, because no other character lower-cases to a letter of "exit" or "quit".
- Client.ScheduleAgent.ChatWithAgent: setup is all or nothing. If `hub.pull` raised after the tools were loaded, the source would keep the new tools; the model keeps the old fields.
- The clock: `get_today_date` reads the system date. It is the `clockToday` parameter of `GetTodayTool`.
- Logging with `print`, the FastAPI application, CORS, the router, configuration and the request model.
- Client.InteractiveLoop: `input()` is the sequence of queries typed. Running out of them ends the loop as `EOFError` would. The loop prints nothing.
