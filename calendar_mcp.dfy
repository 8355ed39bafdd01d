/**
 * The schedule tools of app/backend/mcp_services/calendar_mcp.py. Every data tool
 * first derives the caller's id from the token (`int(await get_user_id_from_token(token))`)
 * and hands only that id to the store; list results become dicts keyed by column name
 * and boolean results become fixed reply texts.
 */
module CalendarMcp {
  import opened Wrappers
  import opened PyText
  import opened Schedules
  import opened DbOp
  import opened Security

  /** Why a tool call raises instead of replying. */
  datatype ToolError =
    | Unauthorized(http: HttpError)  // raised by get_user_id_from_token
    | ValueError                     // int() of a string that is not an integer literal
    | TypeError                      // int() of a claim that is neither a number nor a string

  /** `int(x)` applied to a decoded claim. */
  function PyInt(c: Claim): Result<int, ToolError> {
    match c
    case JNull => Failure(TypeError)
    case JBool(b) => Success(if b then 1 else 0)
    case JInt(i) => Success(i)
    case JFloat(r) => Success(if r >= 0.0 then r.Floor else -((-r).Floor))  // truncates toward zero
    case JStr(s) => if ParseInt(s).Some? then Success(ParseInt(s).value) else Failure(ValueError)
    case JCompound => Failure(TypeError)
  }

  /** `int(await get_user_id_from_token(token))`: the caller's id, from the token alone. */
  function DeriveUserId(decode: Decoder, secretKey: string, token: string): Result<int, ToolError> {
    match GetUserIdFromToken(decode, secretKey, token)
    case Failure(e) => Failure(Unauthorized(e))
    case Success(sub) => PyInt(sub)
  }

  /** A token whose `sub` is the decimal text of an id yields exactly that id. */
  lemma DeriveUserIdOfToken(decode: Decoder, secretKey: string, token: string, n: int)
    requires decode(token, secretKey, [ALGORITHM]).Some?
    requires PayloadGet(decode(token, secretKey, [ALGORITHM]).value, "sub") == JStr(ShowInt(n))
    ensures DeriveUserId(decode, secretKey, token) == Success(n)
  {
    ParseShowInt(n);
  }

  /** The 401 credentials error is raised exactly when the token does not decode under HS256 and
      the configured secret, or its `sub` is missing or null; `int()` may still refuse an
      accepted `sub`, with a different error. */
  lemma DeriveUserIdRejects(decode: Decoder, secretKey: string, token: string)
    ensures var p := decode(token, secretKey, [ALGORITHM]);
      (p.None? || PayloadGet(p.value, "sub") == JNull) <==>
        DeriveUserId(decode, secretKey, token) == Failure(Unauthorized(CredentialsException))
  {
  }

  /** A Python dict, as its items in insertion order. */
  type Dict = seq<(string, Value)>

  /** The keys the list tools use, in the order they are inserted. */
  const ROW_KEYS: seq<string> := ["schedule_id", "user_id", "title", "description", "date", "time"]

  /** The dict a list tool builds from one result row: key `ROW_KEYS[i]` holds `schedule[i]`. */
  function RowToDict(schedule: Tuple): Dict
    requires |schedule| >= 6
  {
    seq(6, i requires 0 <= i < 6 => (ROW_KEYS[i], schedule[i]))
  }

  function DictValues(d: Dict): (r: Tuple)
    ensures |r| == |d|
  {
    seq(|d|, i requires 0 <= i < |d| => d[i].1)
  }

  /** A stored row survives the trip to a dict: reading the dict's values back gives the row. */
  lemma RowDictRoundTrip(r: Row)
    ensures DictValues(RowToDict(AsTuple(r))) == AsTuple(r)
    ensures RowOfTuple(DictValues(RowToDict(AsTuple(r)))) == Some(r)
    ensures forall i :: 0 <= i < 6 ==> RowToDict(AsTuple(r))[i].0 == ROW_KEYS[i]
  {
    RowOfTupleAsTuple(r);
  }

  /** The loop of the list tools: one dict per row, in row order. */
  method RowsToDicts(schedules: seq<Tuple>) returns (list: seq<Dict>)
    requires forall i :: 0 <= i < |schedules| ==> |schedules[i]| >= 6
    ensures |list| == |schedules|
    ensures forall i :: 0 <= i < |list| ==> list[i] == RowToDict(schedules[i])
  {
    list := [];
    for k := 0 to |schedules|
      invariant |list| == k
      invariant forall i :: 0 <= i < k ==> list[i] == RowToDict(schedules[i])
    {
      var schedule := schedules[k];
      var data: Dict := [];
      data := data + [("schedule_id", schedule[0])];
      data := data + [("user_id", schedule[1])];
      data := data + [("title", schedule[2])];
      data := data + [("description", schedule[3])];
      data := data + [("date", schedule[4])];
      data := data + [("time", schedule[5])];
      assert data == RowToDict(schedule);
      list := list + [data];
    }
  }

  /** The pure counterpart of `RowsToDicts`. */
  function Dicts(schedules: seq<Tuple>): seq<Dict>
    requires forall i :: 0 <= i < |schedules| ==> |schedules[i]| >= 6
  {
    seq(|schedules|, i requires 0 <= i < |schedules| => RowToDict(schedules[i]))
  }

  const ADD_OK: string := "日程添加成功"
  const ADD_FAILED: string := "日程添加失败"
  const DELETED: string := "Successfully deleted"
  const NOT_DELETED: string := "Unsuccessful deleted"
  const NO_SUCH_PLAN: string := "The user does not have a relevant plan ID"

  /** A tool call with its arguments other than the token; none of them is a user id. */
  datatype ToolCall =
    | GetToday
    | GetAll
    | GetByDate(date: string)
    | Add(date: string, title: string, time: Option<string>, description: Option<string>)
    | RemoveByDate(date: string)
    | RemoveByUser
    | RemoveById(id: int)
  {
    predicate Writes() {
      Add? || RemoveByDate? || RemoveByUser? || RemoveById?
    }
  }

  /** What a tool returns: a list of dicts, a reply text, or today's date. */
  datatype Reply = List(dicts: seq<Dict>) | Text(text: string) | Today(date: string)

  datatype ToolOutcome = ToolOutcome(after: Tables, reply: Result<Reply, ToolError>)

  function ListReply(rows: seq<Tuple>): Reply
    requires forall x :: x in rows ==> RowOfTuple(x).Some?
  {
    assert forall i :: 0 <= i < |rows| ==> |AsTuple(RowOfTuple(rows[i]).value)| == |rows[i]|;
    List(Dicts(rows))
  }

  /**
   * One tool call against tables `t`, given the identity the token yields, the date the clock
   * reports and the storage faults of its units of work (`fault`, and `deleteFault` for the
   * delete step of removal by id).
   */
  function ToolSpec(call: ToolCall, t: Tables, identity: Result<int, ToolError>, today: string,
                    fault: Fault, deleteFault: Fault): ToolOutcome
  {
    if call.GetToday? then ToolOutcome(t, Success(Today(today)))
    else if identity.Failure? then ToolOutcome(t, Failure(identity.error))
    else
      var userid := identity.value;
      match call
      case GetAll =>
        AllSchedulesExact(t, userid, fault);
        ToolOutcome(t, Success(ListReply(AllSchedulesOf(t, userid, fault))))
      case GetByDate(date) =>
        SchedulesOnExact(t, userid, date, fault);
        ToolOutcome(t, Success(ListReply(SchedulesOn(t, userid, date, fault))))
      case Add(date, title, time, description) =>
        var c := AddOutcome(t, userid, date, title, time, description, fault);
        ToolOutcome(c.after, Success(Text(if c.ok then ADD_OK else ADD_FAILED)))
      case RemoveByDate(date) =>
        var c := RemoveByDateOutcome(t, userid, date, fault);
        ToolOutcome(c.after, Success(Text(if c.ok then DELETED else NOT_DELETED)))
      case RemoveByUser =>
        var c := RemoveByUserOutcome(t, userid, fault);
        ToolOutcome(c.after, Success(Text(if c.ok then DELETED else NOT_DELETED)))
      case RemoveById(id) =>
        var c := RemoveByIdOutcome(t, id, userid, fault, deleteFault);
        ToolOutcome(c.after, Success(Text(if c.ok then DELETED else NO_SUCH_PLAN)))
  }

  /** `get_today`: the clock's date; no token, no store. */
  method GetTodayTool(clockToday: string) returns (reply: Result<Reply, ToolError>)
    ensures reply == Success(Today(clockToday))
    ensures forall t, identity, fault, deleteFault ::
      ToolSpec(GetToday, t, identity, clockToday, fault, deleteFault) == ToolOutcome(t, reply)
  {
    reply := Success(Today(clockToday));
  }

  method McpGetAllSchedulesByUserid(db: Database, decode: Decoder, secretKey: string, token: string, fault: Fault)
    returns (reply: Result<Reply, ToolError>)
    requires db.Valid()
    modifies db
    ensures db.Valid()
    ensures ToolOutcome(db.State(), reply) ==
      ToolSpec(GetAll, old(db.State()), DeriveUserId(decode, secretKey, token), "", fault, NoFault)
  {
    var userid := DeriveUserId(decode, secretKey, token);
    if userid.Failure? {
      return Failure(userid.error);
    }
    var schedules := GetAllSchedulesByUserid(db, userid.value, fault);
    AllSchedulesExact(old(db.State()), userid.value, fault);
    var list := RowsToDicts(schedules);
    assert list == Dicts(schedules);
    reply := Success(List(list));
  }

  method McpGetSchedulesByData(db: Database, decode: Decoder, secretKey: string, token: string, date: string,
                               fault: Fault) returns (reply: Result<Reply, ToolError>)
    requires db.Valid()
    modifies db
    ensures db.Valid()
    ensures ToolOutcome(db.State(), reply) ==
      ToolSpec(GetByDate(date), old(db.State()), DeriveUserId(decode, secretKey, token), "", fault, NoFault)
  {
    var userid := DeriveUserId(decode, secretKey, token);
    if userid.Failure? {
      return Failure(userid.error);
    }
    var schedules := GetSchedulesByData(db, userid.value, date, fault);
    SchedulesOnExact(old(db.State()), userid.value, date, fault);
    var list := RowsToDicts(schedules);
    assert list == Dicts(schedules);
    reply := Success(List(list));
  }

  method McpAddSchedule(db: Database, decode: Decoder, secretKey: string, token: string, date: string, title: string,
                        time: Option<string>, description: Option<string>, fault: Fault)
    returns (reply: Result<Reply, ToolError>)
    requires db.Valid()
    modifies db
    ensures db.Valid()
    ensures ToolOutcome(db.State(), reply) ==
      ToolSpec(Add(date, title, time, description), old(db.State()), DeriveUserId(decode, secretKey, token), "", fault, NoFault)
  {
    var userid := DeriveUserId(decode, secretKey, token);
    if userid.Failure? {
      return Failure(userid.error);
    }
    var result := AddSchedule(db, userid.value, date, title, time, description, fault);
    if result {
      reply := Success(Text(ADD_OK));
    } else {
      reply := Success(Text(ADD_FAILED));
    }
  }

  method McpRemoveScheduleByDate(db: Database, decode: Decoder, secretKey: string, token: string, date: string,
                                 fault: Fault) returns (reply: Result<Reply, ToolError>)
    requires db.Valid()
    modifies db
    ensures db.Valid()
    ensures ToolOutcome(db.State(), reply) ==
      ToolSpec(RemoveByDate(date), old(db.State()), DeriveUserId(decode, secretKey, token), "", fault, NoFault)
  {
    var userid := DeriveUserId(decode, secretKey, token);
    if userid.Failure? {
      return Failure(userid.error);
    }
    var result := RemoveScheduleByDate(db, userid.value, date, fault);
    if result {
      reply := Success(Text(DELETED));
    } else {
      reply := Success(Text(NOT_DELETED));
    }
  }

  method McpRemoveScheduleByUserid(db: Database, decode: Decoder, secretKey: string, token: string, fault: Fault)
    returns (reply: Result<Reply, ToolError>)
    requires db.Valid()
    modifies db
    ensures db.Valid()
    ensures ToolOutcome(db.State(), reply) ==
      ToolSpec(RemoveByUser, old(db.State()), DeriveUserId(decode, secretKey, token), "", fault, NoFault)
  {
    var userid := DeriveUserId(decode, secretKey, token);
    if userid.Failure? {
      return Failure(userid.error);
    }
    var result := RemoveScheduleByUserid(db, userid.value, fault);
    if result {
      reply := Success(Text(DELETED));
    } else {
      reply := Success(Text(NOT_DELETED));
    }
  }

  method McpRemoveScheduleByScheduleId(db: Database, id: int, decode: Decoder, secretKey: string, token: string,
                                       selectFault: Fault, deleteFault: Fault) returns (reply: Result<Reply, ToolError>)
    requires db.Valid()
    modifies db
    ensures db.Valid()
    ensures ToolOutcome(db.State(), reply) ==
      ToolSpec(RemoveById(id), old(db.State()), DeriveUserId(decode, secretKey, token), "", selectFault, deleteFault)
  {
    var userid := DeriveUserId(decode, secretKey, token);
    if userid.Failure? {
      return Failure(userid.error);
    }
    var result := RemoveScheduleById(db, id, userid.value, selectFault, deleteFault);
    if result {
      reply := Success(Text(DELETED));
    } else {
      reply := Success(Text(NO_SUCH_PLAN));
    }
  }

  /** Only a write tool called with a verified identity changes the tables; without an identity,
      every tool other than `get_today` raises that identity's error and touches nothing. */
  lemma ToolChangesOnlyWithIdentity(call: ToolCall, t: Tables, identity: Result<int, ToolError>, today: string,
                                    fault: Fault, deleteFault: Fault)
    ensures var o := ToolSpec(call, t, identity, today, fault, deleteFault);
      o.after != t ==> identity.Success? && call.Writes()
    ensures identity.Failure? && !call.GetToday? ==>
      ToolSpec(call, t, identity, today, fault, deleteFault) == ToolOutcome(t, Failure(identity.error))
    ensures call.GetToday? ==> ToolSpec(call, t, identity, today, fault, deleteFault) == ToolOutcome(t, Success(Today(today)))
  {
  }

  /** Per-user isolation: whatever tool user `userid` calls, what any other user lists afterwards
      is exactly what they listed before. */
  lemma ToolIsolation(call: ToolCall, t: Tables, userid: int, v: int, today: string, fault: Fault, deleteFault: Fault)
    requires v != userid
    ensures AllSchedulesOf(ToolSpec(call, t, Success(userid), today, fault, deleteFault).after, v, NoFault)
         == AllSchedulesOf(t, v, NoFault)
  {
    match call
    case Add(date, title, time, description) =>
      if fault == NoFault {
        AddThenList(t, userid, date, title, time, description, v);
      }
    case RemoveByDate(date) =>
      OtherUsersUntouched(t, userid, v, date, 0, fault, deleteFault);
    case RemoveByUser =>
      OtherUsersUntouched(t, userid, v, "", 0, fault, deleteFault);
    case RemoveById(id) =>
      OtherUsersUntouched(t, userid, v, "", id, fault, deleteFault);
    case _ =>
  }

  /** The list-all tool replies with exactly the caller's rows: each dict reads back as one of
      the caller's stored rows, and without a storage error each of those rows has its dict. */
  lemma ListToolExact(t: Tables, userid: int, fault: Fault)
    ensures var o := ToolSpec(GetAll, t, Success(userid), "", fault, NoFault);
      && o.after == t && o.reply.Success? && o.reply.value.List?
      && (forall d :: d in o.reply.value.dicts ==>
            && RowOfTuple(DictValues(d)).Some?
            && RowOfTuple(DictValues(d)).value in t.schedules
            && RowOfTuple(DictValues(d)).value.userId == userid)
      && (fault == NoFault ==> forall r :: r in t.schedules && r.userId == userid ==>
            RowToDict(AsTuple(r)) in o.reply.value.dicts)
  {
    var rows := AllSchedulesOf(t, userid, fault);
    AllSchedulesExact(t, userid, fault);
    var ds := ToolSpec(GetAll, t, Success(userid), "", fault, NoFault).reply.value.dicts;
    forall d | d in ds
      ensures RowOfTuple(DictValues(d)).Some? && RowOfTuple(DictValues(d)).value in t.schedules
      ensures RowOfTuple(DictValues(d)).value.userId == userid
    {
      var i :| 0 <= i < |ds| && ds[i] == d;
      assert rows[i] in rows;
      RowDictRoundTrip(RowOfTuple(rows[i]).value);
    }
    if fault == NoFault {
      forall r | r in t.schedules && r.userId == userid ensures RowToDict(AsTuple(r)) in ds {
        var i :| 0 <= i < |rows| && rows[i] == AsTuple(r);
        assert ds[i] == RowToDict(AsTuple(r));
      }
    }
  }

  /** The list-by-date tool replies with exactly the caller's rows on that date. */
  lemma ListByDateToolExact(t: Tables, userid: int, date: string, fault: Fault)
    ensures var o := ToolSpec(GetByDate(date), t, Success(userid), "", fault, NoFault);
      && o.after == t && o.reply.Success? && o.reply.value.List?
      && (forall d :: d in o.reply.value.dicts ==>
            && RowOfTuple(DictValues(d)).Some?
            && RowOfTuple(DictValues(d)).value in t.schedules
            && RowOfTuple(DictValues(d)).value.userId == userid
            && RowOfTuple(DictValues(d)).value.date == date)
      && (fault == NoFault ==> forall r :: r in t.schedules && r.userId == userid && r.date == date ==>
            RowToDict(AsTuple(r)) in o.reply.value.dicts)
  {
    var rows := SchedulesOn(t, userid, date, fault);
    SchedulesOnExact(t, userid, date, fault);
    var ds := ToolSpec(GetByDate(date), t, Success(userid), "", fault, NoFault).reply.value.dicts;
    forall d | d in ds
      ensures RowOfTuple(DictValues(d)).Some? && RowOfTuple(DictValues(d)).value in t.schedules
      ensures RowOfTuple(DictValues(d)).value.userId == userid && RowOfTuple(DictValues(d)).value.date == date
    {
      var i :| 0 <= i < |ds| && ds[i] == d;
      assert rows[i] in rows;
      RowDictRoundTrip(RowOfTuple(rows[i]).value);
    }
    if fault == NoFault {
      forall r | r in t.schedules && r.userId == userid && r.date == date ensures RowToDict(AsTuple(r)) in ds {
        var i :| 0 <= i < |rows| && rows[i] == AsTuple(r);
        assert ds[i] == RowToDict(AsTuple(r));
      }
    }
  }

  /** The reply texts of adding and of the two bulk deletes: success exactly when no storage
      error occurred, a delete that matched nothing included. */
  lemma WriteToolReplies(t: Tables, userid: int, date: string, title: string, time: Option<string>,
                         description: Option<string>, fault: Fault)
    ensures ToolSpec(Add(date, title, time, description), t, Success(userid), "", fault, NoFault).reply
         == Success(Text(if fault == NoFault then ADD_OK else ADD_FAILED))
    ensures ToolSpec(RemoveByDate(date), t, Success(userid), "", fault, NoFault).reply
         == Success(Text(if fault == NoFault then DELETED else NOT_DELETED))
    ensures ToolSpec(RemoveByUser, t, Success(userid), "", fault, NoFault).reply
         == Success(Text(if fault == NoFault then DELETED else NOT_DELETED))
  {
  }

  /** Removal by id reports success exactly when both units of work succeeded and the caller owns
      a schedule with that id; ownership failure and storage error get the same text. */
  lemma RemoveByIdToolReply(t: Tables, userid: int, id: int, selectFault: Fault, deleteFault: Fault)
    requires WellKeyed(t)
    ensures ToolSpec(RemoveById(id), t, Success(userid), "", selectFault, deleteFault).reply
         == Success(Text(if selectFault == NoFault && deleteFault == NoFault &&
                            (exists r :: r in t.schedules && r.id == id && r.userId == userid)
                         then DELETED else NO_SUCH_PLAN))
  {
    RemoveByIdOwnership(t, id, userid, selectFault, deleteFault);
  }
}
