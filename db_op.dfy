/**
 * The schedule store of app/backend/tools/db_op.py: the `DatabaseConnection`
 * unit of work, the six `_sync_*` schedule operations and `_sync_get_user_from_db`,
 * and their `async` wrappers, which run the same call on a worker thread and are
 * modelled as direct calls.
 *
 * Storage errors (`pymysql.MySQLError`) are a `Fault` parameter per unit of work:
 * where in the `with` block the error is raised.
 */
module DbOp {
  import opened Wrappers
  import opened Schedules

  /** A driver object held by `DatabaseConnection`: `None`, live, or closed. */
  datatype Handle = Unset | Open | Closed

  /** The calls `__exit__` makes on the driver objects. */
  datatype DriverCall = Commit | Rollback | CloseCursor | CloseConnection

  /** Where a unit of work raises `pymysql.MySQLError`, if it does. */
  datatype Fault =
    | NoFault
    | ConnectFails                       // pymysql.connect raises inside __enter__
    | ExecuteFails(rollbackFails: bool)  // cursor.execute raises; the rollback in __exit__ may raise too
    | CommitFails                        // connection.commit raises inside __exit__

  /** The MySQL database: the `schedules` table with its auto-increment counter, and `users`. */
  class Database {
    var schedules: seq<Row>
    var nextId: int
    const users: seq<User>

    ghost predicate Valid()
      reads this
    {
      WellKeyed(State())
    }

    function State(): Tables
      reads this
    {
      Tables(schedules, nextId)
    }

    constructor (schedules: seq<Row>, nextId: int, users: seq<User>)
      requires WellKeyed(Tables(schedules, nextId))
      ensures Valid() && State() == Tables(schedules, nextId) && this.users == users
    {
      this.schedules := schedules;
      this.nextId := nextId;
      this.users := users;
    }
  }

  /** `DatabaseConnection(DB_CONFIG)`: one connection and one transaction, used as a context manager. */
  class DatabaseConnection {
    const db: Database
    var connection: Handle
    var cursor: Handle
    /** The tables as the open transaction sees them; written back on commit. */
    var work: Tables
    /** The commit, rollback and close calls made so far, in order. */
    ghost var calls: seq<DriverCall>

    ghost predicate Valid()
      reads this
    {
      && (connection == Open ==> cursor == Open && WellKeyed(work))
      && (connection == Unset ==> cursor == Unset)
    }

    /** `__init__`: no connection and no cursor yet. */
    constructor (db: Database)
      ensures this.db == db && connection == Unset && cursor == Unset && calls == []
      ensures Valid()
    {
      this.db := db;
      connection := Unset;
      cursor := Unset;
      work := Tables([], 0);
      calls := [];
    }

    /** `__enter__`: connect and open a cursor; a failed connect raises and leaves both `None`. */
    method Enter(connectFails: bool) returns (entered: bool)
      requires connection == Unset && db.Valid()
      modifies this
      ensures Valid() && calls == old(calls)
      ensures entered == !connectFails
      ensures entered ==> connection == Open && cursor == Open && work == db.State()
      ensures !entered ==> connection == Unset && cursor == Unset
    {
      if connectFails {
        connection, cursor := Unset, Unset;
        return false;
      }
      connection := Open;
      cursor := Open;
      work := db.State();
      return true;
    }

    /** `cursor.execute(sql, values)` followed by `cursor.fetchall()`; `None` when it raises. */
    method Execute(stmt: Statement, fails: bool) returns (rows: Option<seq<Tuple>>)
      requires Valid() && connection == Open
      modifies this`work
      ensures Valid()
      ensures fails ==> rows == None && work == old(work)
      ensures !fails ==> rows == Some(Run(stmt, old(work), db.users).rows) && work == Run(stmt, old(work), db.users).after
    {
      if fails {
        return None;
      }
      RunWellKeyed(stmt, work, db.users);
      var e := Run(stmt, work, db.users);
      work := e.after;
      rows := Some(e.rows);
    }

    /**
     * `__exit__(exc_type, ...)`: when a connection was opened, roll back if the block raised
     * and commit otherwise, then close the cursor and the connection even when that call
     * raised (`endFails`); without a connection, do nothing. Never suppresses the exception.
     */
    method Exit(excOccurred: bool, endFails: bool) returns (suppress: bool, raised: bool)
      requires Valid() && connection != Closed && db.Valid()
      modifies this, db
      ensures db.Valid()
      ensures !suppress
      ensures old(connection) == Unset ==>
        && !raised && connection == Unset && cursor == Unset && calls == old(calls)
      ensures old(connection) == Open ==>
        && calls == old(calls) + [if excOccurred then Rollback else Commit, CloseCursor, CloseConnection]
        && connection == Closed && cursor == Closed
        && raised == endFails
      ensures db.State() == if old(connection) == Open && !excOccurred && !endFails then old(work) else old(db.State())
    {
      suppress, raised := false, false;
      if connection != Unset {
        if excOccurred {
          calls := calls + [Rollback];
        } else {
          calls := calls + [Commit];
          if !endFails {
            db.schedules, db.nextId := work.schedules, work.nextId;
          }
        }
        raised := endFails;
        // finally:
        if cursor != Unset {
          cursor := Closed;
          calls := calls + [CloseCursor];
        }
        connection := Closed;
        calls := calls + [CloseConnection];
      }
    }
  }

  /** What one unit of work leaves: the tables and, when nothing was raised, the fetched rows. */
  datatype Outcome = Outcome(after: Tables, rows: Option<seq<Tuple>>)

  /** One statement run as a unit of work: all of it on success, none of it on any fault. */
  function Transact(stmt: Statement, t: Tables, users: seq<User>, fault: Fault): Outcome {
    if fault == NoFault then
      var e := Run(stmt, t, users);
      Outcome(e.after, Some(e.rows))
    else Outcome(t, None)
  }

  /**
   * `with DatabaseConnection(DB_CONFIG) as cursor: cursor.execute(...); cursor.fetchall()`
   * inside `try ... except pymysql.MySQLError`: `None` when the error was caught.
   */
  method UnitOfWork(db: Database, stmt: Statement, fault: Fault) returns (rows: Option<seq<Tuple>>)
    requires db.Valid()
    modifies db
    ensures db.Valid()
    ensures Outcome(db.State(), rows) == Transact(stmt, old(db.State()), db.users, fault)
  {
    var conn := new DatabaseConnection(db);
    var entered := conn.Enter(fault.ConnectFails?);
    if !entered {
      // __enter__ raised: the body never ran and __exit__ is not called.
      return None;
    }
    var result := conn.Execute(stmt, fault.ExecuteFails?);
    var endFails := if fault.ExecuteFails? then fault.rollbackFails else fault.CommitFails?;
    var suppress, raised := conn.Exit(result.None?, endFails);
    if result.None? || raised {
      // __exit__ returned False (or raised itself): the error reaches the except clause.
      return None;
    }
    rows := result;
  }

  /** Result of the boolean operations: the tables afterwards and the returned flag. */
  datatype Changed = Changed(after: Tables, ok: bool)

  /** `_sync_get_all_schedules_by_userid`: the fetched rows, or `()` on a storage error. */
  function AllSchedulesOf(t: Tables, userid: int, fault: Fault): seq<Tuple> {
    Transact(SelectWhere(UserIs(userid)), t, [], fault).rows.GetOr([])
  }

  /** `_sync_get_schedules_by_data`. */
  function SchedulesOn(t: Tables, userid: int, date: string, fault: Fault): seq<Tuple> {
    Transact(SelectWhere(UserOnDate(userid, date)), t, [], fault).rows.GetOr([])
  }

  /** `_sync_add_schedule`. */
  function AddOutcome(t: Tables, userid: int, date: string, title: string, time: Option<string>,
                      description: Option<string>, fault: Fault): Changed {
    var o := Transact(Insert(userid, date, title, time, description), t, [], fault);
    Changed(o.after, o.rows.Some?)
  }

  /** `_sync_remove_schedule_by_date`. */
  function RemoveByDateOutcome(t: Tables, userid: int, date: string, fault: Fault): Changed {
    var o := Transact(DeleteWhere(UserOnDate(userid, date)), t, [], fault);
    Changed(o.after, o.rows.Some?)
  }

  /** `_sync_remove_schedule_by_userid`. */
  function RemoveByUserOutcome(t: Tables, userid: int, fault: Fault): Changed {
    var o := Transact(DeleteWhere(UserIs(userid)), t, [], fault);
    Changed(o.after, o.rows.Some?)
  }

  /** `_sync_remove_schedule_by_id`: an ownership query, then a delete filtered on both columns. */
  function RemoveByIdOutcome(t: Tables, scheduleId: int, userid: int, selectFault: Fault, deleteFault: Fault): Changed {
    var q := Transact(SelectIdsWhere(UserIs(userid)), t, [], selectFault);
    if q.rows.None? then Changed(t, false)
    else if [VInt(scheduleId)] !in q.rows.value then Changed(t, false)
    else
      var d := Transact(DeleteWhere(UserAndId(userid, scheduleId)), q.after, [], deleteFault);
      Changed(d.after, d.rows.Some?)
  }

  /** `_sync_get_user_from_db`: the matching `users` rows, or `()` on a storage error. */
  function UserRowsOf(users: seq<User>, t: Tables, userid: int, fault: Fault): seq<Tuple> {
    Transact(SelectUser(userid), t, users, fault).rows.GetOr([])
  }

  method SyncGetAllSchedulesByUserid(db: Database, userid: int, fault: Fault) returns (rows: seq<Tuple>)
    requires db.Valid()
    modifies db
    ensures db.Valid() && db.State() == old(db.State())
    ensures rows == AllSchedulesOf(old(db.State()), userid, fault)
  {
    var r := UnitOfWork(db, SelectWhere(UserIs(userid)), fault);
    rows := r.GetOr([]);
  }

  method SyncGetSchedulesByData(db: Database, userid: int, date: string, fault: Fault) returns (rows: seq<Tuple>)
    requires db.Valid()
    modifies db
    ensures db.Valid() && db.State() == old(db.State())
    ensures rows == SchedulesOn(old(db.State()), userid, date, fault)
  {
    var r := UnitOfWork(db, SelectWhere(UserOnDate(userid, date)), fault);
    rows := r.GetOr([]);
  }

  method SyncAddSchedule(db: Database, userid: int, date: string, title: string, time: Option<string>,
                         description: Option<string>, fault: Fault) returns (ok: bool)
    requires db.Valid()
    modifies db
    ensures db.Valid()
    ensures Changed(db.State(), ok) == AddOutcome(old(db.State()), userid, date, title, time, description, fault)
  {
    var r := UnitOfWork(db, Insert(userid, date, title, time, description), fault);
    ok := r.Some?;
  }

  method SyncRemoveScheduleByDate(db: Database, userid: int, date: string, fault: Fault) returns (ok: bool)
    requires db.Valid()
    modifies db
    ensures db.Valid()
    ensures Changed(db.State(), ok) == RemoveByDateOutcome(old(db.State()), userid, date, fault)
  {
    var r := UnitOfWork(db, DeleteWhere(UserOnDate(userid, date)), fault);
    ok := r.Some?;
  }

  method SyncRemoveScheduleByUserid(db: Database, userid: int, fault: Fault) returns (ok: bool)
    requires db.Valid()
    modifies db
    ensures db.Valid()
    ensures Changed(db.State(), ok) == RemoveByUserOutcome(old(db.State()), userid, fault)
  {
    var r := UnitOfWork(db, DeleteWhere(UserIs(userid)), fault);
    ok := r.Some?;
  }

  method SyncRemoveScheduleById(db: Database, scheduleId: int, userid: int, selectFault: Fault, deleteFault: Fault)
    returns (ok: bool)
    requires db.Valid()
    modifies db
    ensures db.Valid()
    ensures Changed(db.State(), ok) == RemoveByIdOutcome(old(db.State()), scheduleId, userid, selectFault, deleteFault)
  {
    var scheduleIds := UnitOfWork(db, SelectIdsWhere(UserIs(userid)), selectFault);
    if scheduleIds.None? {
      return false;
    }
    if [VInt(scheduleId)] !in scheduleIds.value {
      return false;
    }
    var deleted := UnitOfWork(db, DeleteWhere(UserAndId(userid, scheduleId)), deleteFault);
    ok := deleted.Some?;
  }

  method SyncGetUserFromDb(db: Database, userid: int, fault: Fault) returns (rows: seq<Tuple>)
    requires db.Valid()
    modifies db
    ensures db.Valid() && db.State() == old(db.State())
    ensures rows == UserRowsOf(db.users, old(db.State()), userid, fault)
  {
    var r := UnitOfWork(db, SelectUser(userid), fault);
    rows := r.GetOr([]);
  }

  // The async interfaces hand the same arguments, in the same order, to the
  // synchronous implementation on a worker thread and return its result.

  method GetAllSchedulesByUserid(db: Database, userid: int, fault: Fault) returns (rows: seq<Tuple>)
    requires db.Valid()
    modifies db
    ensures db.Valid() && db.State() == old(db.State())
    ensures rows == AllSchedulesOf(old(db.State()), userid, fault)
  {
    rows := SyncGetAllSchedulesByUserid(db, userid, fault);
  }

  method GetSchedulesByData(db: Database, userid: int, date: string, fault: Fault) returns (rows: seq<Tuple>)
    requires db.Valid()
    modifies db
    ensures db.Valid() && db.State() == old(db.State())
    ensures rows == SchedulesOn(old(db.State()), userid, date, fault)
  {
    rows := SyncGetSchedulesByData(db, userid, date, fault);
  }

  method AddSchedule(db: Database, userid: int, date: string, title: string, time: Option<string>,
                     description: Option<string>, fault: Fault) returns (ok: bool)
    requires db.Valid()
    modifies db
    ensures db.Valid()
    ensures Changed(db.State(), ok) == AddOutcome(old(db.State()), userid, date, title, time, description, fault)
  {
    ok := SyncAddSchedule(db, userid, date, title, time, description, fault);
  }

  method RemoveScheduleByDate(db: Database, userid: int, date: string, fault: Fault) returns (ok: bool)
    requires db.Valid()
    modifies db
    ensures db.Valid()
    ensures Changed(db.State(), ok) == RemoveByDateOutcome(old(db.State()), userid, date, fault)
  {
    ok := SyncRemoveScheduleByDate(db, userid, date, fault);
  }

  method RemoveScheduleByUserid(db: Database, userid: int, fault: Fault) returns (ok: bool)
    requires db.Valid()
    modifies db
    ensures db.Valid()
    ensures Changed(db.State(), ok) == RemoveByUserOutcome(old(db.State()), userid, fault)
  {
    ok := SyncRemoveScheduleByUserid(db, userid, fault);
  }

  method RemoveScheduleById(db: Database, scheduleId: int, userid: int, selectFault: Fault, deleteFault: Fault)
    returns (ok: bool)
    requires db.Valid()
    modifies db
    ensures db.Valid()
    ensures Changed(db.State(), ok) == RemoveByIdOutcome(old(db.State()), scheduleId, userid, selectFault, deleteFault)
  {
    ok := SyncRemoveScheduleById(db, scheduleId, userid, selectFault, deleteFault);
  }

  method GetUserFromDb(db: Database, userid: int, fault: Fault) returns (rows: seq<Tuple>)
    requires db.Valid()
    modifies db
    ensures db.Valid() && db.State() == old(db.State())
    ensures rows == UserRowsOf(db.users, old(db.State()), userid, fault)
  {
    rows := SyncGetUserFromDb(db, userid, fault);
  }

  /** Listing returns exactly the caller's rows: every tuple reads back as one of the caller's
      stored rows and each of those is listed; a storage error yields an empty listing. */
  lemma AllSchedulesExact(t: Tables, userid: int, fault: Fault)
    ensures fault != NoFault ==> AllSchedulesOf(t, userid, fault) == []
    ensures fault == NoFault ==>
      forall r :: AsTuple(r) in AllSchedulesOf(t, userid, fault) <==> r in t.schedules && r.userId == userid
    ensures forall x :: x in AllSchedulesOf(t, userid, fault) ==>
      RowOfTuple(x).Some? && RowOfTuple(x).value in t.schedules && RowOfTuple(x).value.userId == userid
    ensures var l := AllSchedulesOf(t, userid, fault);
      WellKeyed(t) ==> forall i, j :: 0 <= i < j < |l| ==> l[i] != l[j]
  {
    KeepMembers(t.schedules, UserIs(userid), true);
    ProjectMembers(Keep(t.schedules, UserIs(userid), true));
    if WellKeyed(t) && fault == NoFault {
      KeepUniqueIds(t.schedules, UserIs(userid), true);
      ProjectDistinct(Keep(t.schedules, UserIs(userid), true));
    }
  }

  /** Listing by date returns exactly the caller's rows on that date. */
  lemma SchedulesOnExact(t: Tables, userid: int, date: string, fault: Fault)
    ensures fault != NoFault ==> SchedulesOn(t, userid, date, fault) == []
    ensures fault == NoFault ==>
      forall r :: AsTuple(r) in SchedulesOn(t, userid, date, fault) <==>
        r in t.schedules && r.userId == userid && r.date == date
    ensures forall x :: x in SchedulesOn(t, userid, date, fault) ==>
      && RowOfTuple(x).Some? && RowOfTuple(x).value in t.schedules
      && RowOfTuple(x).value.userId == userid && RowOfTuple(x).value.date == date
    ensures var l := SchedulesOn(t, userid, date, fault);
      WellKeyed(t) ==> forall i, j :: 0 <= i < j < |l| ==> l[i] != l[j]
  {
    KeepMembers(t.schedules, UserOnDate(userid, date), true);
    ProjectMembers(Keep(t.schedules, UserOnDate(userid, date), true));
    if WellKeyed(t) && fault == NoFault {
      KeepUniqueIds(t.schedules, UserOnDate(userid, date), true);
      ProjectDistinct(Keep(t.schedules, UserOnDate(userid, date), true));
    }
  }

  /** Adding succeeds exactly when no storage error occurs; it then appends one row carrying the
      given fields under an id no stored row has, and otherwise changes nothing. */
  lemma AddInsertsFreshRow(t: Tables, userid: int, date: string, title: string, time: Option<string>,
                           description: Option<string>, fault: Fault)
    requires WellKeyed(t)
    ensures var c := AddOutcome(t, userid, date, title, time, description, fault);
      && (c.ok <==> fault == NoFault)
      && (!c.ok ==> c.after == t)
      && (c.ok ==> c.after.schedules == t.schedules + [Row(t.nextId, userid, title, description, date, time)])
      && (c.ok ==> forall r :: r in t.schedules ==> r.id != t.nextId)
      && WellKeyed(c.after)
  {
    RunWellKeyed(Insert(userid, date, title, time, description), t, []);
    forall r | r in t.schedules ensures r.id != t.nextId {
      var i :| 0 <= i < |t.schedules| && t.schedules[i] == r;
    }
  }

  /** After a successful add, the adding user's listing gains the new row at the end and every
      other user's listing is unchanged. */
  lemma AddThenList(t: Tables, userid: int, date: string, title: string, time: Option<string>,
                    description: Option<string>, v: int)
    ensures var c := AddOutcome(t, userid, date, title, time, description, NoFault);
      AllSchedulesOf(c.after, v, NoFault) ==
        AllSchedulesOf(t, v, NoFault) + (if v == userid then [AsTuple(Row(t.nextId, userid, title, description, date, time))] else [])
  {
    var n := Row(t.nextId, userid, title, description, date, time);
    var c := UserIs(v);
    KeepAppend(t.schedules, [n], c, true);
    KeepCons(n, [], c, true);
    assert [n] + [] == [n];
    ProjectAppend(Keep(t.schedules, c, true), Keep([n], c, true));
  }

  /** Removing by date succeeds exactly when no storage error occurs, whether or not any row
      matched; it removes exactly the caller's rows on that date, after which none is listed. */
  lemma RemoveByDateExact(t: Tables, userid: int, date: string, fault: Fault)
    ensures var c := RemoveByDateOutcome(t, userid, date, fault);
      && (c.ok <==> fault == NoFault)
      && (!c.ok ==> c.after == t)
      && c.after.nextId == t.nextId
      && (c.ok ==> forall r :: r in c.after.schedules <==> r in t.schedules && !(r.userId == userid && r.date == date))
      && (c.ok ==> SchedulesOn(c.after, userid, date, NoFault) == [])
  {
    KeepMembers(t.schedules, UserOnDate(userid, date), false);
    DeleteThenSelectEmpty(t.schedules, UserOnDate(userid, date));
  }

  /** Removing by date twice is the same as removing once, and the second call also returns True. */
  lemma RemoveByDateIdempotent(t: Tables, userid: int, date: string)
    ensures var c := RemoveByDateOutcome(t, userid, date, NoFault);
      RemoveByDateOutcome(c.after, userid, date, NoFault) == c
  {
    KeepIdempotent(t.schedules, UserOnDate(userid, date), false);
  }

  /** Removing all of a user's schedules removes exactly that user's rows. */
  lemma RemoveByUserExact(t: Tables, userid: int, fault: Fault)
    ensures var c := RemoveByUserOutcome(t, userid, fault);
      && (c.ok <==> fault == NoFault)
      && (!c.ok ==> c.after == t)
      && c.after.nextId == t.nextId
      && (c.ok ==> forall r :: r in c.after.schedules <==> r in t.schedules && r.userId != userid)
      && (c.ok ==> AllSchedulesOf(c.after, userid, NoFault) == [])
  {
    KeepMembers(t.schedules, UserIs(userid), false);
    DeleteThenSelectEmpty(t.schedules, UserIs(userid));
  }

  lemma RemoveByUserIdempotent(t: Tables, userid: int)
    ensures var c := RemoveByUserOutcome(t, userid, NoFault);
      RemoveByUserOutcome(c.after, userid, NoFault) == c
  {
    KeepIdempotent(t.schedules, UserIs(userid), false);
  }

  /** Removing by id succeeds exactly when both units of work succeed and the caller owns a row
      with that id; it then removes that one row and nothing else, and otherwise changes nothing. */
  lemma RemoveByIdOwnership(t: Tables, scheduleId: int, userid: int, selectFault: Fault, deleteFault: Fault)
    requires WellKeyed(t)
    ensures var c := RemoveByIdOutcome(t, scheduleId, userid, selectFault, deleteFault);
      && (c.ok <==> selectFault == NoFault && deleteFault == NoFault &&
                    exists r :: r in t.schedules && r.id == scheduleId && r.userId == userid)
      && (!c.ok ==> c.after == t)
      && c.after.nextId == t.nextId
      && (c.ok ==> |c.after.schedules| == |t.schedules| - 1)
      && (c.ok ==> forall r :: r in c.after.schedules <==>
                     r in t.schedules && !(r.id == scheduleId && r.userId == userid))
  {
    var mine := Keep(t.schedules, UserIs(userid), true);
    KeepMembers(t.schedules, UserIs(userid), true);
    IdTuplesMembers(mine, scheduleId);
    var owned := exists r :: r in t.schedules && r.id == scheduleId && r.userId == userid;
    assert owned <==> [VInt(scheduleId)] in IdTuples(mine);
    if selectFault == NoFault && deleteFault == NoFault && owned {
      KeepMembers(t.schedules, UserAndId(userid, scheduleId), false);
      PointDeleteRemovesOne(t.schedules, userid, scheduleId);
    }
  }

  /** A schedule id that belongs to another user is never deleted: the call returns False and
      the tables are unchanged. */
  lemma ForeignIdNeverRemoved(t: Tables, scheduleId: int, userid: int, selectFault: Fault, deleteFault: Fault)
    requires WellKeyed(t)
    requires exists r :: r in t.schedules && r.id == scheduleId && r.userId != userid
    ensures RemoveByIdOutcome(t, scheduleId, userid, selectFault, deleteFault) == Changed(t, false)
  {
    var other :| other in t.schedules && other.id == scheduleId && other.userId != userid;
    forall r | r in t.schedules && r.id == scheduleId ensures r.userId != userid {
      var i :| 0 <= i < |t.schedules| && t.schedules[i] == r;
      var j :| 0 <= j < |t.schedules| && t.schedules[j] == other;
      assert i == j;
    }
    RemoveByIdOwnership(t, scheduleId, userid, selectFault, deleteFault);
  }

  /** No operation of user `userid` changes what another user `v` lists. */
  lemma OtherUsersUntouched(t: Tables, userid: int, v: int, date: string, scheduleId: int,
                            fault: Fault, deleteFault: Fault)
    requires v != userid
    ensures AllSchedulesOf(RemoveByDateOutcome(t, userid, date, fault).after, v, NoFault) == AllSchedulesOf(t, v, NoFault)
    ensures AllSchedulesOf(RemoveByUserOutcome(t, userid, fault).after, v, NoFault) == AllSchedulesOf(t, v, NoFault)
    ensures AllSchedulesOf(RemoveByIdOutcome(t, scheduleId, userid, fault, deleteFault).after, v, NoFault)
         == AllSchedulesOf(t, v, NoFault)
  {
    DeleteSparesOtherUser(t.schedules, UserOnDate(userid, date), v);
    DeleteSparesOtherUser(t.schedules, UserIs(userid), v);
    DeleteSparesOtherUser(t.schedules, UserAndId(userid, scheduleId), v);
  }

  /** The user lookup returns only rows of the requested id; without a storage error it returns
      every user with that id, and `()` for a missing user; on a storage error it returns `()`. */
  lemma UserRowsMatch(users: seq<User>, t: Tables, userid: int, fault: Fault)
    ensures fault != NoFault ==> UserRowsOf(users, t, userid, fault) == []
    ensures forall x :: x in UserRowsOf(users, t, userid, fault) ==> |x| > 0 && x[0] == VInt(userid)
    ensures fault == NoFault ==>
      forall u :: u in users && u.id == userid ==> [VInt(u.id)] + u.columns in UserRowsOf(users, t, userid, fault)
    ensures fault == NoFault && (forall u :: u in users ==> u.id != userid) ==> UserRowsOf(users, t, userid, fault) == []
  {
    UserTuplesMatch(users, userid);
  }
}
